/** The field checks of the contact wizard (src/pages/ContactForm.tsx):
    the e-mail shape, the Brazilian phone digit count, and the phone mask
    applied while the visitor types. */
module ContactFields {

  /** A character JavaScript's `\s` matches. */
  predicate IsWhitespace(c: char) {
    || c == ' ' || c == '\t' || c == '\n' || c == '\U{000B}' || c == '\U{000C}' || c == '\r'
    || c == '\U{00A0}' || c == '\U{1680}' || ('\U{2000}' <= c <= '\U{200A}')
    || c == '\U{2028}' || c == '\U{2029}' || c == '\U{202F}' || c == '\U{205F}'
    || c == '\U{3000}' || c == '\U{FEFF}'
  }

  /** `[^\s@]` */
  predicate EmailChar(c: char) {
    c != '@' && !IsWhitespace(c)
  }

  /** `[^\s@]+` */
  predicate EmailRun(s: string) {
    s != "" && forall k | 0 <= k < |s| :: EmailChar(s[k])
  }

  /** `/^[^\s@]+@[^\s@]+\.[^\s@]+$/.test(email)`: a run, "@", a run, ".",
      a run, where no run holds "@" or white space. */
  function ValidateEmail(email: string): (ok: bool)
    ensures ok ==> |email| >= 5 && '@' in email && EmailChar(email[0]) && EmailChar(email[|email| - 1])
  {
    exists at, dot | 0 <= at < dot < |email| ::
      && email[at] == '@' && email[dot] == '.'
      && EmailRun(email[..at]) && EmailRun(email[at + 1..dot]) && EmailRun(email[dot + 1..])
  }

  predicate NoWhitespace(s: string) {
    forall k | 0 <= k < |s| :: !IsWhitespace(s[k])
  }

  /** `s[at]` is the one and only "@" of `s`. */
  predicate SoleAt(s: string, at: int) {
    0 <= at < |s| && s[at] == '@' && forall k | 0 <= k < |s| && k != at :: s[k] != '@'
  }

  /** Some "." of `s` has a character before it after position `at + 1`
      and a character after it. */
  predicate InnerDotAfter(s: string, at: int) {
    exists dot | 0 <= dot && at + 1 < dot < |s| - 1 :: s[dot] == '.'
  }

  /** No white space, exactly one "@" with something before it, and, after
      the "@", a "." with at least one character on each side. */
  predicate EmailShape(email: string) {
    && NoWhitespace(email)
    && exists at | 0 < at < |email| :: SoleAt(email, at) && InnerDotAfter(email, at)
  }

  lemma ValidEmailHasShape(email: string)
    requires ValidateEmail(email)
    ensures EmailShape(email)
  {
    var at, dot :| 0 <= at < dot < |email| && email[at] == '@' && email[dot] == '.'
      && EmailRun(email[..at]) && EmailRun(email[at + 1..dot]) && EmailRun(email[dot + 1..]);
    forall k | 0 <= k < |email| ensures EmailChar(email[k]) || k == at || k == dot {
      if k < at {
        assert email[k] == email[..at][k];
      } else if at < k < dot {
        assert email[k] == email[at + 1..dot][k - at - 1];
      } else if dot < k {
        assert email[k] == email[dot + 1..][k - dot - 1];
      }
    }
    assert !IsWhitespace('@') && !IsWhitespace('.');
    assert SoleAt(email, at) && InnerDotAfter(email, at);
  }

  lemma ShapedEmailIsValid(email: string)
    requires EmailShape(email)
    ensures ValidateEmail(email)
  {
    var at :| 0 < at < |email| && SoleAt(email, at) && InnerDotAfter(email, at);
    var dot :| at + 1 < dot < |email| - 1 && email[dot] == '.';
    var local, domain, tld := email[..at], email[at + 1..dot], email[dot + 1..];
    forall k | 0 <= k < |local| ensures EmailChar(local[k]) {
      assert local[k] == email[k];
    }
    forall k | 0 <= k < |domain| ensures EmailChar(domain[k]) {
      assert domain[k] == email[at + 1 + k];
    }
    forall k | 0 <= k < |tld| ensures EmailChar(tld[k]) {
      assert tld[k] == email[dot + 1 + k];
    }
    assert EmailRun(local) && EmailRun(domain) && EmailRun(tld);
  }

  /** An address passes exactly when it has the shape above. */
  lemma ValidateEmailIff(email: string)
    ensures ValidateEmail(email) <==> EmailShape(email)
  {
    if ValidateEmail(email) {
      ValidEmailHasShape(email);
    }
    if EmailShape(email) {
      ShapedEmailIsValid(email);
    }
  }

  /** `\d`: an ASCII decimal digit. */
  predicate IsDigit(c: char) {
    '0' <= c <= '9'
  }

  predicate AllDigits(s: string) {
    forall k | 0 <= k < |s| :: IsDigit(s[k])
  }

  /** `s.replace(/\D/g, '')`: the digits of `s`, in order. */
  function Digits(s: string): (d: string)
    ensures |d| <= |s| && AllDigits(d)
  {
    if s == [] then []
    else if IsDigit(s[0]) then [s[0]] + Digits(s[1..])
    else Digits(s[1..])
  }

  /** A string of digits is its own digits. */
  lemma {:induction false} DigitsOfDigits(s: string)
    requires AllDigits(s)
    ensures Digits(s) == s
  {
    if s != [] {
      DigitsOfDigits(s[1..]);
      assert s == [s[0]] + s[1..];
    }
  }

  lemma {:induction false} DigitsConcat(a: string, b: string)
    ensures Digits(a + b) == Digits(a) + Digits(b)
  {
    if a == [] {
      assert a + b == b;
    } else {
      var ab := a + b;
      assert ab[0] == a[0];
      assert ab[1..] == a[1..] + b;
      DigitsConcat(a[1..], b);
      if IsDigit(a[0]) {
        assert Digits(ab) == [a[0]] + Digits(ab[1..]);
        assert Digits(a) == [a[0]] + Digits(a[1..]);
      } else {
        assert Digits(ab) == Digits(ab[1..]);
        assert Digits(a) == Digits(a[1..]);
      }
    }
  }

  /** `validatePhone`: 10 digits (landline with area code) or 11 (mobile
      with area code), whatever else the text holds. */
  function ValidatePhone(phone: string): (ok: bool)
    ensures ok ==> |phone| >= 10
  {
    10 <= |Digits(phone)| <= 11
  }

  /** Inserting a character that is not a digit never changes the
      verdict. */
  lemma ValidatePhoneIgnoresNonDigits(before: string, c: char, after: string)
    requires !IsDigit(c)
    ensures ValidatePhone(before + [c] + after) == ValidatePhone(before + after)
  {
    DigitsConcat(before + [c], after);
    DigitsConcat(before, [c]);
    DigitsConcat(before, after);
  }

  /** The mask for at most eleven digits: "DD", "(DD) N...", "(DD) NNNN-N..."
      and, with eleven, "(DD) NNNNN-NNNN". */
  function Mask(limited: string): (masked: string)
    ensures |limited| <= |masked| <= |limited| + 4
    ensures |limited| >= 3 ==> masked[0] == '('
  {
    if |limited| <= 2 then limited
    else if |limited| <= 7 then "(" + limited[..2] + ") " + limited[2..]
    else if |limited| <= 10 then "(" + limited[..2] + ") " + limited[2..6] + "-" + limited[6..]
    else "(" + limited[..2] + ") " + limited[2..7] + "-" + limited[7..]
  }

  /** Digits of "(" + head + ") " + mid, then of that followed by "-" and
      a tail. */
  lemma DigitsOfBracketed(head: string, mid: string)
    requires AllDigits(head) && AllDigits(mid)
    ensures Digits("(" + head + ") " + mid) == head + mid
  {
    DigitsOfDigits(head);
    DigitsOfDigits(mid);
    var open, close := "(", ") ";
    assert Digits(open) == [];
    assert Digits(close[1..]) == [];
    assert Digits(close) == [];
    DigitsConcat(open, head);
    var a := open + head;
    assert Digits(a) == head;
    DigitsConcat(a, close);
    var b := a + close;
    assert Digits(b) == head;
    DigitsConcat(b, mid);
  }

  lemma DigitsOfHyphenated(front: string, tail: string)
    requires AllDigits(tail)
    ensures Digits(front + "-" + tail) == Digits(front) + tail
  {
    DigitsOfDigits(tail);
    var hyphen := "-";
    assert !IsDigit(hyphen[0]) && hyphen[1..] == [];
    assert Digits(hyphen) == [];
    DigitsConcat(front, hyphen);
    DigitsConcat(front + hyphen, tail);
  }

  /** The mask adds punctuation only: its digits are the ones masked. */
  lemma MaskDigits(limited: string)
    requires AllDigits(limited)
    ensures Digits(Mask(limited)) == limited
  {
    var d := limited;
    if |d| <= 2 {
      DigitsOfDigits(d);
    } else if |d| <= 7 {
      DigitsOfBracketed(d[..2], d[2..]);
      assert d[..2] + d[2..] == d;
    } else {
      var k := if |d| <= 10 then 6 else 7;
      DigitsOfBracketed(d[..2], d[2..k]);
      DigitsOfHyphenated("(" + d[..2] + ") " + d[2..k], d[k..]);
      assert d[..2] + d[2..k] + d[k..] == d;
    }
  }

  /** The layout of the mask: bare up to two digits; from three on "(DD) "
      first; a hyphen exactly from eight digits on, and for a full number
      (ten or eleven digits) right before the last four. */
  lemma MaskShape(d: string)
    requires AllDigits(d) && |d| <= 11
    ensures var r := Mask(d);
            && (|d| <= 2 ==> r == d)
            && (|d| >= 3 ==> |r| >= 5 && r[..5] == "(" + d[..2] + ") ")
            && (3 <= |d| <= 7 ==> r == "(" + d[..2] + ") " + d[2..])
            && (8 <= |d| <= 10 ==> |r| >= 10 && r[..10] == "(" + d[..2] + ") " + d[2..6] + "-")
            && (('-' in r) <==> |d| >= 8)
            && (|d| >= 10 ==> r == "(" + d[..2] + ") " + d[2..|d| - 4] + "-" + d[|d| - 4..])
            && |r| == (if |d| <= 2 then |d| else if |d| <= 7 then |d| + 3 else |d| + 4)
  {
    var r := Mask(d);
    assert !IsDigit('-');
    if |d| <= 2 {
      assert '-' !in d;
    } else if |d| <= 7 {
      var mid := d[2..];
      assert '-' !in d[..2] && '-' !in mid;
      assert r == "(" + d[..2] + ") " + mid;
      assert r[..5] == "(" + d[..2] + ") ";
    } else {
      var k := if |d| <= 10 then 6 else 7;
      var mid, tail := d[2..k], d[k..];
      assert r == "(" + d[..2] + ") " + mid + "-" + tail;
      assert r[..5] == "(" + d[..2] + ") ";
      assert r[5 + |mid|] == '-';
    }
  }

  function Min(a: int, b: int): int {
    if a <= b then a else b
  }

  /** `formatPhone`: keeps the first eleven digits of what was typed and
      masks them; the digits of the result are exactly those. */
  function FormatPhone(value: string): (masked: string)
    ensures Digits(masked) == Digits(value)[..Min(11, |Digits(value)|)]
  {
    var numbers := Digits(value);
    var limited := if |numbers| <= 11 then numbers else numbers[..11];
    MaskDigits(limited);
    Mask(limited)
  }

  /** Masking masked text changes nothing. */
  lemma FormatPhoneIdempotent(value: string)
    ensures FormatPhone(FormatPhone(value)) == FormatPhone(value)
  {
    var numbers := Digits(value);
    var limited := if |numbers| <= 11 then numbers else numbers[..11];
    MaskDigits(limited);
  }

  /** The layout of the formatted field in terms of the digits typed: a
      "(DD) " prefix from three digits on, a hyphen exactly from eight on,
      and for a full number the hyphen right before the last four kept. */
  lemma FormatPhoneLayout(value: string)
    ensures var d := Digits(value)[..Min(11, |Digits(value)|)];
            var r := FormatPhone(value);
            && (|d| <= 2 ==> r == d)
            && (|d| >= 3 ==> |r| >= 5 && r[..5] == "(" + d[..2] + ") ")
            && (3 <= |d| <= 7 ==> r == "(" + d[..2] + ") " + d[2..])
            && (8 <= |d| <= 10 ==> |r| >= 10 && r[..10] == "(" + d[..2] + ") " + d[2..6] + "-")
            && (('-' in r) <==> |Digits(value)| >= 8)
            && (|d| >= 10 ==> r == "(" + d[..2] + ") " + d[2..|d| - 4] + "-" + d[|d| - 4..])
  {
    var numbers := Digits(value);
    var limited := if |numbers| <= 11 then numbers else numbers[..11];
    assert limited == numbers[..Min(11, |numbers|)];
    MaskShape(limited);
  }

  /** A masked phone passes `validatePhone` exactly when at least ten
      digits were typed. */
  lemma FormatPhoneValid(value: string)
    ensures ValidatePhone(FormatPhone(value)) <==> |Digits(value)| >= 10
  {
  }
}
