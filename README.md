# Maven Estúdio site: the logic behind the pages

A Dafny model of the parts of the Maven Estúdio brochure site that carry
logic rather than presentation:

- **The lead-capture wizard** (`src/pages/ContactForm.tsx`). It has an
  introduction screen and eight fixed questions. Each answer is checked when
  the visitor tries to move on: a required answer must not be empty, and
  e-mail and phone answers must have the right shape. The phone field is
  masked as the visitor types. The services question is a multi-select whose
  choices are stored as one text joined with ", ". After the last question
  the answers are sent, and the sending flags follow the outcome of the
  primary endpoint.
- **The language context** (`src/contexts/LanguageContext.tsx`). It holds the
  active language (Portuguese, English or Spanish), restores it from the
  value saved on an earlier visit, and switches it behind a loading flag.
  Its lookup `t` follows a dotted key through the active dictionary and
  returns the key itself when a segment is missing.
- **`publicUrl`** (`src/lib/utils.ts`). It puts a public asset path under the
  base path the site was built for.
- **The project page** (`src/pages/Project.tsx`). It has the zero-padded
  image lists of the three portfolio projects and the lookup of a project by
  its route id. Its lightbox steps cyclically through a project's images,
  driven by the arrow keys and Escape. Its grid makes the first image large.

Files:

- `wrappers.dfy`: `Option`.
- `strings.dfy`: JavaScript's `String.prototype.split` and
  `Array.prototype.join` with a non-empty separator, and their round trips.
- `public_url.dfy`: `publicUrl`.
- `language_context.dfy`: the languages, the dictionary tree, the lookup
  `t`, and the provider's state as a class.
- `contact_fields.dfy`: `validateEmail`, `validatePhone` and `formatPhone`.
- `contact_form.dfy`: the question catalogue, the answer checks, the
  service multi-select, and the wizard's state as a class.
- `project_gallery.dfy`: `rangeImages`, `projectsData`, `getGridClass`, and
  the lightbox as a class.

The React state of each component is a class. Its fields are the
component's state variables, and its methods are the event handlers. Each
method's `ensures` states the handler's whole effect, in terms of the pure
functions that the lemmas are about.

Three behaviours of the wizard are easy to miss in the code, and the model
states them as the code has them:

- **Leaving the introduction keeps old errors.** Moving from the
  introduction to the first question does not touch the error map
  (`ContactForm.tsx:235-238`). `handlePrevious` itself keeps the errors when
  it goes from the first question back to the introduction, but the page
  never makes that call: the back button is shown only from the second
  question on (`ContactForm.tsx:775-777`). As wired, the error map is empty
  whenever the introduction is shown.
- **An error message is not kept in step with its answer.** Errors are only
  set by an advance. A refusal replaces the whole error map with the one new
  entry, and typing clears only the edited answer's error
  (`ContactForm.tsx:246-251`, `323-329`). So an invalid answer can show no
  error until the visitor tries to advance.
- **The sending flag does not block every second submission.** It disables
  the "next" button (`ContactForm.tsx:789`). Enter in the last question's text
  area still calls `handleNext` (`ContactForm.tsx:422-427`, `514`). So with
  valid answers, a second submission starts while the first is in flight.
  `ContactForm.Wizard.HandleNext` and `ContactForm.Wizard.HandleKeyDown`
  state this as written: they have no guard on `isSubmitting`.

## Model

| member | source | states |
|---|---|---|
| Strings.Split | src/pages/ContactForm.tsx:524 | `split` gives at least one piece, and joining the pieces with the same separator gives back the original text. |
| Strings.Join | src/pages/ContactForm.tsx:533 | `join` starts with the first piece, and no piece is longer than the result. |
| Strings.SplitFree | src/pages/ContactForm.tsx:524 | A text that does not contain the separator splits into exactly one piece, itself. |
| Strings.SplitConcat | src/contexts/LanguageContext.tsx:57 | If the separator has no proper prefix equal to a suffix, then splitting `a + sep + b` gives the pieces of `a` followed by the pieces of `b`. |
| Strings.SplitJoin | src/pages/ContactForm.tsx:524-533 | Splitting the join of a non-empty list of pieces that are free of the separator gives back the list. |
| Strings.JoinSnoc | src/pages/ContactForm.tsx:531-533 | Appending one piece to a non-empty list appends the separator and the piece to the joined text. |
| PublicUrl.NormalizeBase | src/lib/utils.ts:13-17 | The normalised base always starts and ends with "/". An empty base becomes "/". A base already of that form is unchanged. At most two characters are added. |
| PublicUrl.StripLeadingSlashes | src/lib/utils.ts:18 | The result is the path less a run of leading slashes. It never starts with "/". |
| PublicUrl.PublicUrl | src/lib/utils.ts:12-19 | The URL starts with "/" and begins with the normalised base. The base ends with "/" and is never followed by another "/". The rest is the path less all its leading slashes. |
| PublicUrl.StripSlashesPrefix | src/lib/utils.ts:18 | Slashes put in front of a path are stripped along with the path's own leading slashes. |
| PublicUrl.LeadingSlashesIgnored | src/lib/utils.ts:10-18 | Any number of slashes in front of the path gives the same URL ("foo", "/foo" and "///foo" alike). |
| PublicUrl.PublicUrlIdempotentAtRoot | src/lib/utils.ts:13-19 | Under the base "/", applying `publicUrl` to its own result changes nothing. |
| LanguageContext.Code | src/contexts/LanguageContext.tsx:6 | A language is saved as one of "pt", "en" and "es". |
| LanguageContext.InitialLanguage | src/contexts/LanguageContext.tsx:26-32 | In a browser with a saved value among "pt", "en" and "es", that language is chosen. In every other case the choice is Portuguese. |
| LanguageContext.SavedLanguageRestored | src/contexts/LanguageContext.tsx:26-46 | The language saved by a switch is the one chosen on the next visit. |
| LanguageContext.Child | src/contexts/LanguageContext.tsx:60 | `value?.[k]` finds something exactly when the value is an object holding `k`. |
| LanguageContext.Walk | src/contexts/LanguageContext.tsx:58-62 | Following no segment stays on the entry, following one segment is `value?.[k]`, and a walk that gets anywhere starts from an object. |
| LanguageContext.Translation | src/contexts/LanguageContext.tsx:55-64 | `t(key)` is the entry reached by following the segments of the key, or the key itself; it is the key whenever a segment is missing. |
| LanguageContext.WalkAppend | src/contexts/LanguageContext.tsx:59-62 | Following a path made of two parts follows the first part, then the second from where the first ended. Following stops at the first missing segment. |
| LanguageContext.TranslationComposes | src/contexts/LanguageContext.tsx:55-64 | `t("a.b")` is the lookup of `b` inside the entry that `a` names. When either part is missing it is the key itself. |
| LanguageContext.MissingSegmentFallsBack | src/contexts/LanguageContext.tsx:59-61 | If the walk reaches an entry that lacks the next segment, `t` returns the key unchanged. |
| LanguageContext.PlainKeyLookup | src/contexts/LanguageContext.tsx:55-64 | A key without "." is looked up directly in the dictionary. When that entry is missing, the key itself is returned. |
| LanguageContext.LanguageProvider.constructor | src/contexts/LanguageContext.tsx:25-34 | The provider starts with the initial language, the loader down, and the saved value as found. |
| LanguageContext.LanguageProvider.T | src/contexts/LanguageContext.tsx:55-64 | The loop over the segments returns the entry that the whole key names in the active language's dictionary. At the first missing segment it returns the key. |
| LanguageContext.LanguageProvider.BeginSwitch | src/contexts/LanguageContext.tsx:36-39 | Choosing the active language does nothing. Any other choice raises the loader. |
| LanguageContext.LanguageProvider.CommitSwitch | src/contexts/LanguageContext.tsx:44-47 | The language becomes the one chosen. In a browser, its code is saved. |
| LanguageContext.LanguageProvider.EndSwitch | src/contexts/LanguageContext.tsx:50 | The loader is lowered. |
| LanguageContext.LanguageProvider.SetLanguage | src/contexts/LanguageContext.tsx:36-51 | Choosing the active language changes neither the language, the loader nor the saved value. Any other choice ends with that language active and saved (in a browser) and the loader down. |
| ContactFields.ValidateEmail | src/pages/ContactForm.tsx:29-32 | An accepted e-mail has at least five characters and an "@", and neither starts nor ends with "@" or white space. |
| ContactFields.ValidEmailHasShape | src/pages/ContactForm.tsx:29-32 | An accepted e-mail has no white space and exactly one "@", with text before it. After the "@" there is a "." with text on both sides. |
| ContactFields.ShapedEmailIsValid | src/pages/ContactForm.tsx:29-32 | An e-mail of that shape is accepted. |
| ContactFields.ValidateEmailIff | src/pages/ContactForm.tsx:29-32 | An e-mail is accepted exactly when all of these hold: it has no white space, it has exactly one "@" and text before it, and after the "@" there is a "." with text on both sides. |
| ContactFields.Digits | src/pages/ContactForm.tsx:36 | Removing the non-digits leaves only digits and never lengthens the text. |
| ContactFields.DigitsOfDigits | src/pages/ContactForm.tsx:36 | A text of digits loses nothing to the digit filter. |
| ContactFields.DigitsConcat | src/pages/ContactForm.tsx:36 | The digit filter works piece by piece over a concatenation. |
| ContactFields.ValidatePhone | src/pages/ContactForm.tsx:34-40 | An accepted phone has at least ten characters. |
| ContactFields.ValidatePhoneIgnoresNonDigits | src/pages/ContactForm.tsx:34-40 | Inserting or removing a non-digit character never changes whether a phone is accepted. |
| ContactFields.Mask | src/pages/ContactForm.tsx:49-58 | The mask adds at most four characters and, from three digits on, starts with "(". |
| ContactFields.MaskDigits | src/pages/ContactForm.tsx:49-58 | The mask adds punctuation only: its digits are exactly the digits masked. |
| ContactFields.MaskShape | src/pages/ContactForm.tsx:49-58 | Up to two digits are bare. From three to seven digits the result is "(DD) " and the other digits. From eight to ten it starts "(DD) NNNN-". A "-" appears exactly when there are eight digits or more, and with ten or eleven digits it comes right before the last four. The length is the digit count, plus 3 or 4. |
| ContactFields.FormatPhone | src/pages/ContactForm.tsx:42-58 | The digits of the masked text are exactly the first min(11, n) digits of the input. |
| ContactFields.FormatPhoneLayout | src/pages/ContactForm.tsx:42-58 | The layout of `formatPhone` in terms of the digits kept: bare up to two; "(DD) " and the rest up to seven; "(DD) NNNN-" first from eight to ten; a "-" exactly from eight digits typed. A full number ends "-" and its last four digits. |
| ContactFields.FormatPhoneIdempotent | src/pages/ContactForm.tsx:42-58 | Formatting an already formatted phone changes nothing. |
| ContactFields.FormatPhoneValid | src/pages/ContactForm.tsx:34-58 | A formatted phone is accepted exactly when at least ten digits were typed. |
| ContactForm.StepCatalogue | src/pages/ContactForm.tsx:154-219 | There are eight questions, numbered 1 to 8, each filling a different answer. Only company, budget and timeline are optional. The fifth question is the service multi-select. |
| ContactForm.AllFieldsListed | src/pages/ContactForm.tsx:64-73 | The initial answer set covers all eight answers. |
| ContactForm.MessageKey | src/pages/ContactForm.tsx:250-277 | Each refusal's message is a "form.errors." translation key. |
| ContactForm.MessageKeysDistinct | src/pages/ContactForm.tsx:250-277 | Different refusals have different message keys. |
| ContactForm.Check | src/pages/ContactForm.tsx:248-286 | An answer is refused as "required" exactly when it is required and empty. It is refused as an invalid e-mail exactly when it is a non-empty e-mail answer that fails `validateEmail` and the "required" check passed, and likewise for the phone. It passes exactly when none of these applies. |
| ContactForm.MaskedPhoneCheck | src/pages/ContactForm.tsx:274-286 | A phone entered through the mask is refused as invalid exactly when fewer than ten digits were typed. |
| ContactForm.ServiceLabel | src/pages/ContactForm.tsx:545 | The label shown is one of the service's three labels. It is empty only if the Portuguese one is, and it is non-empty and comma-free for a service whose labels all are. |
| ContactForm.CommaFreeStorable | src/pages/ContactForm.tsx:524-533 | A non-empty label without a comma survives being stored in the ", "-joined text. |
| ContactForm.ServiceLabelsStorable | src/pages/ContactForm.tsx:79-140 | Every one of the six service labels, in every language, can be stored and read back: it is non-empty and holds no ", ". |
| ContactForm.Without | src/pages/ContactForm.tsx:529 | Filtering out a label keeps exactly the other labels, and keeps the list itself when the label is absent. |
| ContactForm.Selection | src/pages/ContactForm.tsx:524 | The chosen list is empty exactly when the stored text is "", and joining it gives back the stored text. |
| ContactForm.ToggledList | src/pages/ContactForm.tsx:527-532 | After a click, a label is chosen exactly when it was chosen and is not the one clicked, or it is the one clicked and was not chosen. |
| ContactForm.Toggled | src/pages/ContactForm.tsx:524-533 | Clicking on an empty selection stores the label alone. Clicking an unchosen label appends ", " and the label to the stored text. |
| ContactForm.SelectionOfJoin | src/pages/ContactForm.tsx:524-533 | Stored labels read back as the same list. The stored text is "" exactly when nothing is chosen. |
| ContactForm.ToggleAddsOrRemoves | src/pages/ContactForm.tsx:524-534 | A click removes a chosen label and appends an unchosen one, leaving the other labels in order. Afterwards the label is chosen exactly when it was not before. An empty choice is stored as "". |
| ContactForm.ToggleTwiceRestores | src/pages/ContactForm.tsx:524-534 | Two clicks on a label that was not chosen restore the stored text exactly. |
| ContactForm.PreviousStep | src/pages/ContactForm.tsx:298-304 | Going back moves one question back, from the first question to the introduction, and nowhere from the introduction. |
| ContactForm.Wizard.CurrentField | src/pages/ContactForm.tsx:230 | A question is on screen exactly when the wizard is past the introduction. |
| ContactForm.Wizard.constructor | src/pages/ContactForm.tsx:63-76 | The wizard starts on the introduction with all eight answers empty, no error, and neither flag set. |
| ContactForm.Wizard.NextDisabled | src/pages/ContactForm.tsx:789 | The "next" button is disabled while sending. On the introduction it is disabled only then. On a question it is disabled exactly when an answer is being sent or the "required" check refuses the current answer. |
| ContactForm.Wizard.HandleNext | src/pages/ContactForm.tsx:233-296 | From the introduction the wizard opens question 1 and checks nothing. On a question, a refusal keeps the step and the answers and leaves exactly one error, for this question, holding the refusal's message key. A pass clears all errors and moves on, or on question 8 starts sending. The step stays within 0..8 and the answers never change. |
| ContactForm.Wizard.HandlePrevious | src/pages/ContactForm.tsx:298-304 | The step becomes the previous one, as `PreviousStep` gives it. |
| ContactForm.Wizard.HandleInputChange | src/pages/ContactForm.tsx:306-330 | Only the targeted answer changes: it is the named answer, or else the current question's. A phone is stored through `formatPhone`. Only that answer's error is dropped. With nothing targeted, nothing changes. |
| ContactForm.Wizard.ToggleService | src/pages/ContactForm.tsx:524-534 | The service answer becomes the toggled text and its error is dropped. Nothing else changes. |
| ContactForm.Wizard.HandleKeyDown | src/pages/ContactForm.tsx:422-427 | Enter without Shift has exactly the effect and result of "next": it opens the first question, records the refusal, moves on, or starts sending, as `HandleNext` states. Any other key changes nothing. |
| ContactForm.Wizard.CompleteSubmission | src/pages/ContactForm.tsx:377-419 | Only the primary endpoint decides. On success the form is marked sent and a success notice is shown, otherwise a failure notice. Either way the sending flag is cleared, so a retry is possible. |
| ProjectGallery.DecimalString | src/pages/Project.tsx:15 | `String(n)` is one or more decimal digits with no leading zero. |
| ProjectGallery.DecimalRoundTrip | src/pages/Project.tsx:15 | Reading back `String(n)` gives `n`. |
| ProjectGallery.ImageNumberFacts | src/pages/Project.tsx:15 | Padding to two digits never truncates. The result is at least two digits long, ends with all of `n`'s digits, and reads back as `n`. |
| ProjectGallery.ImageNumber | src/pages/Project.tsx:15 | The number has at least two characters, ends with all the digits of `n`, and is padded with "0" only. |
| ProjectGallery.ImagePath | src/pages/Project.tsx:16 | The path starts with "/dir/" and ends with ".png". |
| ProjectGallery.RangeImages | src/pages/Project.tsx:12-18 | There are exactly `count` paths, and path `i` is "/dir/prefix-NN.png" for number `i + 1`. |
| ProjectGallery.ImagePathInjective | src/pages/Project.tsx:14-17 | Two image numbers with the same path are equal. |
| ProjectGallery.RangeImagesDistinct | src/pages/Project.tsx:12-18 | A project's image list names no file twice. |
| ProjectGallery.ProjectsData | src/pages/Project.tsx:20-44 | The route ids are exactly "lealdino", "maven-estudio" and "natulife". |
| ProjectGallery.FindProject | src/pages/Project.tsx:52 | A project is found exactly when an id is given and is one of the three route ids, and it is that id's entry. |
| ProjectGallery.FirstImage | src/pages/Project.tsx:14-16 | A non-empty list starts with "/dir/prefix-01.png". |
| ProjectGallery.ProjectImages | src/pages/Project.tsx:20-44 | The three projects have 20, 19 and 16 images, and the first Lealdino image is "/lealdino-jorge/lealdino-01.png". |
| ProjectGallery.NextIndex | src/pages/Project.tsx:65 | "Next" stays in range, moves one forward, and wraps from the last image to the first. |
| ProjectGallery.PreviousIndex | src/pages/Project.tsx:72 | "Previous" stays in range. |
| ProjectGallery.NextPreviousInverse | src/pages/Project.tsx:63-75 | "Next" and "previous" undo each other. |
| ProjectGallery.Forward | src/pages/Project.tsx:63-68 | Any number of presses of "next" stays in range. |
| ProjectGallery.ForwardWraps | src/pages/Project.tsx:65 | Up to a full round, `k` presses move `k` places, wrapping once past the last image. |
| ProjectGallery.FullCycle | src/pages/Project.tsx:63-68 | As many presses of "next" as there are images return to the start. |
| ProjectGallery.GridClass | src/pages/Project.tsx:100-108 | The first image spans two columns and two rows. Every other index spans one column. |
| ProjectGallery.Lightbox.constructor | src/pages/Project.tsx:50 | The lightbox starts closed. |
| ProjectGallery.Lightbox.Open | src/pages/Project.tsx:140 | Clicking a grid image opens it. |
| ProjectGallery.Lightbox.Close | src/pages/Project.tsx:169-175 | Closing the dialog clears the selection. |
| ProjectGallery.Lightbox.HandleNext | src/pages/Project.tsx:63-68 | An open image moves to the next one, cyclically. While closed, nothing changes. |
| ProjectGallery.Lightbox.HandlePrevious | src/pages/Project.tsx:70-75 | An open image moves to the previous one, cyclically. While closed, nothing changes. |
| ProjectGallery.Lightbox.HandleKeyDown | src/pages/Project.tsx:78-89 | While an image is open, the left arrow goes back, the right arrow goes forward, Escape closes, and other keys do nothing. While closed, nothing happens. |

## Left out

- The network part of `handleSubmit` (`ContactForm.tsx:333-376`) is left out: `fetch`, the abort timer, the two parallel requests, reading the response text, the payload with its timestamp, page URL and user agent, and the analytics beacon. Each endpoint's answer is a `Delivery` parameter, and only the flags and the notice kind are modelled.
- Toast notifications and the translated error texts are left out. The error map holds each refusal's translation key (`MessageKey`) where the code holds its translation.
- React rendering, animation, the scroll lock and the progress bar are left out. The progress bar is a floating-point percentage (`ContactForm.tsx:231`).
- The budget and timeline option lists (`ContactForm.tsx:142-152`) are left out. The model stores whatever value the select hands over.
- `localStorage` is modelled as the provider's `saved` field, and the two timers of `setLanguage` as three steps run in order. A second switch started during the delays, and React's stale closures, are not modelled.
- LanguageContext.Translation: only an object's own entries are walked. In the code, `value?.[k]` also finds properties every JavaScript object or string inherits, so `t("constructor")` or `t("form.toString")` returns a function where the model returns the key. Property access on a text leaf (for example `"length"` or a character index) and `null` values in the locale files are not modelled either. The locale files themselves are not part of this model, so a dictionary is any tree.
- The `translations` record and the `LanguageContext` hook plumbing (`LanguageContext.tsx:19-23`, `67-89`) are left out. The catalogue is a constructor parameter, and `LanguageContext.Dictionary` stands for `translations[language]` (`LanguageContext.tsx:53`).
- `cn` (`utils.ts:4-6`) is left out: it is a call into class-name libraries that are not part of this model.
- ProjectGallery.FindProject: names inherited by every JavaScript object (such as "constructor") are not looked up. Only the three own keys of `projectsData` are found.
- The redirect to "/" when no project is found, and the scroll to the top, are navigation side effects and are left out.
- ProjectGallery.PreviousIndex: its own contract says only that the index stays in range. Its value is stated by `NextPreviousInverse`.
- ContactForm.Wizard.HandleKeyDown: `preventDefault` is not modelled.
