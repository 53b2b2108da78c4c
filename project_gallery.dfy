/** The project page (src/pages/Project.tsx): the image list of each
    portfolio project, the lightbox that steps through it, and the grid
    that shows the first image large. */
module ProjectGallery {
  import opened Wrappers
  import opened ContactFields

  function DigitChar(d: nat): (c: char)
    requires d < 10
    ensures IsDigit(c)
  {
    ('0' as int + d) as char
  }

  /** `String(n)` for a natural number: its decimal digits, no leading
      zero. */
  function DecimalString(n: nat): (s: string)
    ensures |s| >= 1 && forall k | 0 <= k < |s| :: IsDigit(s[k])
    ensures |s| > 1 ==> s[0] != '0'
  {
    if n < 10 then [DigitChar(n)] else DecimalString(n / 10) + [DigitChar(n % 10)]
  }

  function DigitValue(c: char): nat
    requires IsDigit(c)
  {
    c as int - '0' as int
  }

  /** The number a string of decimal digits denotes (leading zeros add
      nothing). */
  function DecimalValue(s: string): nat
    requires forall k | 0 <= k < |s| :: IsDigit(s[k])
  {
    if s == [] then 0
    else DecimalValue(s[..|s| - 1]) * 10 + DigitValue(s[|s| - 1])
  }

  lemma {:induction false} DecimalRoundTrip(n: nat)
    ensures DecimalValue(DecimalString(n)) == n
  {
    var s := DecimalString(n);
    if n >= 10 {
      DecimalRoundTrip(n / 10);
      assert s[..|s| - 1] == DecimalString(n / 10);
    }
  }

  /** Leading zeros do not change the value. */
  lemma {:induction false} LeadingZeros(zeros: nat, s: string)
    requires forall k | 0 <= k < |s| :: IsDigit(s[k])
    ensures var padded := seq(zeros, _ => '0') + s;
            (forall k | 0 <= k < |padded| :: IsDigit(padded[k])) && DecimalValue(padded) == DecimalValue(s)
    decreases |s|
  {
    var padded := seq(zeros, _ => '0') + s;
    assert forall k | 0 <= k < |padded| :: IsDigit(padded[k]);
    if s == [] {
      assert padded == seq(zeros, _ => '0');
      AllZeros(zeros);
    } else {
      LeadingZeros(zeros, s[..|s| - 1]);
      assert padded[..|padded| - 1] == seq(zeros, _ => '0') + s[..|s| - 1];
    }
  }

  lemma {:induction false} AllZeros(zeros: nat)
    ensures DecimalValue(seq(zeros, _ => '0')) == 0
  {
    if zeros > 0 {
      AllZeros(zeros - 1);
      assert seq(zeros, _ => '0')[..zeros - 1] == seq(zeros - 1, _ => '0');
    }
  }

  /** `String(n).padStart(2, '0')`: the number on two digits at least;
      longer numbers are kept whole. */
  function ImageNumber(n: nat): (padded: string)
    ensures |padded| >= 2 && |padded| >= |DecimalString(n)|
    ensures padded[|padded| - |DecimalString(n)|..] == DecimalString(n)
    ensures forall k | 0 <= k < |padded| - |DecimalString(n)| :: padded[k] == '0'
  {
    var s := DecimalString(n);
    if |s| >= 2 then s else seq(2 - |s|, _ => '0') + s
  }

  /** The two-digit number is never cut short: it ends with all the
      decimal digits of `n`, has at least two characters, and reads back as
      `n`. */
  lemma ImageNumberFacts(n: nat)
    ensures var s := DecimalString(n);
            var r := ImageNumber(n);
            && |r| == (if |s| >= 2 then |s| else 2)
            && r[|r| - |s|..] == s
            && (forall k | 0 <= k < |r| :: IsDigit(r[k]))
            && DecimalValue(r) == n
  {
    var s := DecimalString(n);
    DecimalRoundTrip(n);
    if |s| < 2 {
      LeadingZeros(2 - |s|, s);
    }
  }

  /** The path of the `n`-th image (numbered from 1). */
  function ImagePath(dir: string, prefix: string, n: nat): (path: string)
    ensures |path| >= |dir| + |prefix| + 9
    ensures path[..|dir| + 2] == "/" + dir + "/"
    ensures path[|path| - 4..] == ".png"
  {
    "/" + dir + "/" + prefix + "-" + ImageNumber(n) + ".png"
  }

  /** `rangeImages({dir, prefix, count})`. */
  function RangeImages(dir: string, prefix: string, count: nat): (paths: seq<string>)
    ensures |paths| == count
    ensures forall i | 0 <= i < count :: paths[i] == ImagePath(dir, prefix, i + 1)
  {
    seq(count, i requires 0 <= i => ImagePath(dir, prefix, i + 1))
  }

  /** Different numbers give different paths. */
  lemma ImagePathInjective(dir: string, prefix: string, a: nat, b: nat)
    requires ImagePath(dir, prefix, a) == ImagePath(dir, prefix, b)
    ensures a == b
  {
    var front := "/" + dir + "/" + prefix + "-";
    var pa, pb := ImagePath(dir, prefix, a), ImagePath(dir, prefix, b);
    assert pa == front + ImageNumber(a) + ".png";
    assert pb == front + ImageNumber(b) + ".png";
    assert ImageNumber(a) == pa[|front|..|pa| - 4];
    assert ImageNumber(b) == pb[|front|..|pb| - 4];
    ImageNumberFacts(a);
    ImageNumberFacts(b);
  }

  /** A project's image list names no file twice. */
  lemma RangeImagesDistinct(dir: string, prefix: string, count: nat)
    ensures forall i, j | 0 <= i < j < count ::
              RangeImages(dir, prefix, count)[i] != RangeImages(dir, prefix, count)[j]
  {
    forall i, j | 0 <= i < j < count
      ensures RangeImages(dir, prefix, count)[i] != RangeImages(dir, prefix, count)[j]
    {
      if ImagePath(dir, prefix, i + 1) == ImagePath(dir, prefix, j + 1) {
        ImagePathInjective(dir, prefix, i + 1, j + 1);
      }
    }
  }

  datatype ProjectInfo = ProjectInfo(title: string, cover: string, description: string, images: seq<string>)

  const Lealdino: ProjectInfo :=
    ProjectInfo("Lealdino Jorge", "/lealdino-jorge.png",
      "Identidade visual completa para consultor e responsável por consórcios",
      RangeImages("lealdino-jorge", "lealdino", 20))

  const MavenEstudio: ProjectInfo :=
    ProjectInfo("Maven Estúdio", "/maven-estudio.png",
      "Rebranding estratégico para estúdio de design",
      RangeImages("maven-estudio", "maven", 19))

  const NatuLife: ProjectInfo :=
    ProjectInfo("Natu Life", "/natu-life.png",
      "Identidade visual para marca de cosméticos 100% veganos e naturais",
      RangeImages("natuli-life", "natulife", 16))

  /** `projectsData`: the three portfolio projects, by route id. */
  function ProjectsData(): (projects: map<string, ProjectInfo>)
    ensures projects.Keys == {"lealdino", "maven-estudio", "natulife"}
  {
    map["lealdino" := Lealdino, "maven-estudio" := MavenEstudio, "natulife" := NatuLife]
  }

  /** `id ? projectsData[id] : null`: no id, or an empty one, finds
      nothing, and neither does an unknown id. */
  function FindProject(id: Option<string>): (project: Option<ProjectInfo>)
    ensures project.Some? <==> id.Some? && id.value in ProjectsData()
    ensures project.Some? ==> project.value == ProjectsData()[id.value]
  {
    if id.None? || id.value == "" then None
    else if id.value in ProjectsData() then Some(ProjectsData()[id.value])
    else None
  }

  /** A non-empty list starts with image "01". */
  lemma FirstImage(dir: string, prefix: string, count: nat)
    requires count > 0
    ensures RangeImages(dir, prefix, count)[0] == "/" + dir + "/" + prefix + "-01.png"
  {
    assert DecimalString(1) == "1";
    assert ImageNumber(1) == "01";
  }

  lemma LealdinoImages()
    ensures |Lealdino.images| == 20 && Lealdino.images[0] == "/lealdino-jorge/lealdino-01.png"
  {
    FirstImage("lealdino-jorge", "lealdino", 20);
  }

  lemma MavenEstudioImages()
    ensures |MavenEstudio.images| == 19
  {
  }

  lemma NatuLifeImages()
    ensures |NatuLife.images| == 16
  {
  }

  /** The lists hold 20, 19 and 16 images, numbered from "01". */
  lemma ProjectImages()
    ensures |Lealdino.images| == 20 && |MavenEstudio.images| == 19 && |NatuLife.images| == 16
    ensures Lealdino.images[0] == "/lealdino-jorge/lealdino-01.png"
  {
    LealdinoImages();
    MavenEstudioImages();
    NatuLifeImages();
  }

  /** The image after `i`, back to the first after the last. */
  function NextIndex(i: nat, count: nat): (j: nat)
    requires i < count
    ensures j < count
    ensures j == if i == count - 1 then 0 else i + 1
  {
    (i + 1) % count
  }

  /** The image before `i`, on to the last before the first. */
  function PreviousIndex(i: nat, count: nat): (j: nat)
    requires i < count
    ensures j < count
  {
    if i == 0 then count - 1 else i - 1
  }

  /** "Next" and "previous" undo each other. */
  lemma NextPreviousInverse(i: nat, count: nat)
    requires i < count
    ensures PreviousIndex(NextIndex(i, count), count) == i
    ensures NextIndex(PreviousIndex(i, count), count) == i
  {
  }

  /** `k` presses of "next" from `i`. */
  function Forward(i: nat, count: nat, k: nat): (j: nat)
    requires i < count
    ensures j < count
  {
    if k == 0 then i else NextIndex(Forward(i, count, k - 1), count)
  }

  /** Up to a full round, `k` presses move `k` places and wrap once past
      the last image. */
  lemma {:induction false} ForwardWraps(i: nat, count: nat, k: nat)
    requires i < count && k <= count
    ensures Forward(i, count, k) == if i + k < count then i + k else i + k - count
  {
    if k > 0 {
      ForwardWraps(i, count, k - 1);
    }
  }

  /** As many presses of "next" as there are images come back to the
      start. */
  lemma FullCycle(i: nat, count: nat)
    requires i < count
    ensures Forward(i, count, count) == i
  {
    ForwardWraps(i, count, count);
  }

  /** `getGridClass`: the first image spans two columns and two rows, every
      other image one column. */
  function GridClass(index: int): (c: string)
    ensures index == 0 ==> c == "md:col-span-2 md:row-span-2"
    ensures index != 0 ==> c == "md:col-span-1"
  {
    if index == 0 then "md:col-span-2 md:row-span-2"
    else if index == 1 || index == 2 then "md:col-span-1"
    else "md:col-span-1"
  }

  /** The project page's lightbox: `selected` is the open image's index,
      None when closed. */
  class Lightbox {
    const project: Option<ProjectInfo>
    var selected: Option<nat>

    ghost predicate Valid()
      reads this
    {
      selected.Some? ==> project.Some? && selected.value < |project.value.images|
    }

    constructor (project: Option<ProjectInfo>)
      ensures Valid() && this.project == project && selected == None
    {
      this.project := project;
      selected := None;
    }

    /** A click on the `index`-th grid image opens it. */
    method Open(index: nat)
      requires Valid() && project.Some? && index < |project.value.images|
      modifies this`selected
      ensures Valid() && selected == Some(index)
    {
      selected := Some(index);
    }

    /** The close button, or the dialog closing. */
    method Close()
      modifies this`selected
      ensures Valid() && selected == None
    {
      selected := None;
    }

    /** `handleNext`: nothing while closed. */
    method HandleNext()
      requires Valid()
      modifies this`selected
      ensures Valid()
      ensures selected == match old(selected)
                          case None => None
                          case Some(i) => Some(NextIndex(i, |project.value.images|))
    {
      if project.Some? && selected.Some? {
        selected := Some((selected.value + 1) % |project.value.images|);
      }
    }

    /** `handlePrevious`: nothing while closed. */
    method HandlePrevious()
      requires Valid()
      modifies this`selected
      ensures Valid()
      ensures selected == match old(selected)
                          case None => None
                          case Some(i) => Some(PreviousIndex(i, |project.value.images|))
    {
      if project.Some? && selected.Some? {
        var i := selected.value;
        selected := Some(if i == 0 then |project.value.images| - 1 else i - 1);
      }
    }

    /** The key listener, attached only while an image is open: the left
        arrow goes back, the right arrow forward, Escape closes, and any
        other key does nothing. */
    method HandleKeyDown(key: string)
      requires Valid()
      modifies this`selected
      ensures Valid()
      ensures old(selected).None? ==> selected == None
      ensures old(selected).Some? ==>
                var i, count := old(selected).value, |project.value.images|;
                selected == (if key == "ArrowLeft" then Some(PreviousIndex(i, count))
                             else if key == "ArrowRight" then Some(NextIndex(i, count))
                             else if key == "Escape" then None
                             else Some(i))
    {
      if selected.None? || project.None? {
        return;
      }
      if key == "ArrowLeft" {
        HandlePrevious();
      } else if key == "ArrowRight" {
        HandleNext();
      } else if key == "Escape" {
        selected := None;
      }
    }
  }
}
