# Dr. Polena's practice page: a Dafny model of its logic

The site is a single marketing page for a psychiatrist. Only three parts of it contain logic, and this project models those three:

- **The contact form** (`contact_schema.dfy`, `contact_form.dfy`). A declarative schema gives each of the four fields (`name`, `email`, `phone`, `message`) one rule and one fixed message. `Validate` is a pure function from a draft to `Ok(draft)` or to a map from field to message. The form itself is the class `ContactForm.Form`. It holds the four draft strings and a log of the toasts it has emitted. `Submit` models the form's submit event: it validates the draft, and only a valid draft reaches `OnSubmit`. `OnSubmit` emits the fixed "Message Sent" acknowledgement and resets every field to `""`.
- **The education year badge** (`education.dfy`). `BadgeLabel` is `"2025"` when the year text includes `"Completed"`. Otherwise it is the first piece of the year text split at the en dash (U+2013). JavaScript's `includes`, `split` and `join` are written out as functions. Each is tied to an independent definition by a lemma.
- **The navigation menu** (`navigation.dfy`). The class `Navigation.Menu` holds the mobile menu's `isOpen` flag. `Toggle` flips the flag. `ScrollToSection` closes the menu only when an element with the given id exists.

Two things the page gets from the browser or from libraries are parameters in this model:

- The e-mail format test is done inside the validation library and cannot be seen. It is the parameter `isEmail: string -> bool`.
- The DOM lookup by id is the parameter `page: set<string>`, the set of ids of the elements present.

Where the description of the system and the code differ, this model follows the code:

- The description says an empty draft fails every rule. In the code, whether `""` fails the email rule depends on the library's hidden format test. So `DefaultDraftRejected` proves that the empty draft fails on `name`, `phone` and `message`, and fails on `email` exactly when `isEmail("")` is false. `EmptyDraftScenario` gets all four errors by requiring `!isEmail("")`.
- The description's "Submitted" state is not a separate field. An accepted submit returns `Accepted(draft)` and leaves the form in the editing state, with its fields cleared.

## Model

| member | source | states |
|---|---|---|
| ContactSchema.FieldErrors | client/src/components/contact_section.tsx:21-26 | a field is a key exactly when it fails its own rule, and its value is that rule's message |
| ContactSchema.Validate | client/src/components/contact_section.tsx:21-26 | a draft is accepted iff every field passes its rule; an accepted draft is returned unchanged; a rejection always carries at least one error |
| ContactSchema.ValidateReportsFieldErrors | client/src/components/contact_section.tsx:21-26 | the errors validation reports are exactly the per-field errors, and an accepted draft reports none |
| ContactSchema.AcceptedIffNoErrors | client/src/components/contact_section.tsx:21-26 | a draft is accepted iff its error map is empty |
| ContactSchema.FieldIndependence | client/src/components/contact_section.tsx:21-26 | whether a field is flagged, and with what message, depends only on that field's text |
| ContactSchema.NameRule | client/src/components/contact_section.tsx:22 | `name` is flagged iff its length is below 2, and then with "Name is required" |
| ContactSchema.EmailRule | client/src/components/contact_section.tsx:23 | `email` is flagged iff the format test fails, whatever its length, and then with "Invalid email address" |
| ContactSchema.PhoneRule | client/src/components/contact_section.tsx:24 | `phone` is flagged iff its length is below 10, and then with "Valid phone number is required" |
| ContactSchema.MessageRule | client/src/components/contact_section.tsx:25 | `message` is flagged iff its length is below 10, and then with "Please provide more details" |
| ContactSchema.DefaultDraftRejected | client/src/components/contact_section.tsx:32-37 | the all-empty default draft is rejected on name, phone and message, and on email exactly when `""` is not an address |
| ContactSchema.OnlyFailure | client/src/components/contact_section.tsx:21-26 | a draft whose only failing field is `f` is rejected with exactly the one entry for `f` |
| ContactSchema.AcceptedScenario | client/src/components/contact_section.tsx:21-26 | the draft {"Jo", "a@b.com", "1234567890", "Hello there, I need help."} is accepted as it is |
| ContactSchema.ShortNameScenario | client/src/components/contact_section.tsx:22 | the same draft with name "J" is rejected with only {name: "Name is required"} |
| ContactSchema.BadEmailScenario | client/src/components/contact_section.tsx:23 | the same draft with email "not-an-email" is rejected with only {email: "Invalid email address"} |
| ContactSchema.EmptyDraftScenario | client/src/components/contact_section.tsx:21-26 | the empty draft, with `""` not an address, is rejected with all four messages |
| ContactSchema.HomeCopyMatches | client/src/pages/home.tsx:37-42 | the home page's copy of the schema has the same rule and message for every field, so it validates every draft the same way |
| ContactForm.Decide | client/src/components/contact_section.tsx:82 | the submit outcome is Accepted with the draft iff every field passes; otherwise Rejected with the non-empty per-field errors |
| ContactForm.Form.constructor | client/src/components/contact_section.tsx:30-38 | a new form holds four empty fields and has emitted no toast |
| ContactForm.Form.Edit | client/src/components/contact_section.tsx:84-140 | typing into one field changes only that field and emits nothing |
| ContactForm.Form.OnSubmit | client/src/components/contact_section.tsx:40-47 | appends exactly one "Message Sent" toast with the fixed thank-you text, and resets all four fields to "" |
| ContactForm.Form.Submit | client/src/components/contact_section.tsx:82 | the outcome is the one validation decides for the current draft; when accepted: one acknowledgement appended and fields reset; when rejected: fields and toast log unchanged |
| ContactForm.SubmitTwice | client/src/components/contact_section.tsx:32-47 | filling in a valid draft and submitting twice gives Accepted(draft), then a rejection of the reset form, and exactly one acknowledgement |
| Education.IncludesIff | client/src/pages/home.tsx:300 | `includes` holds exactly when the text occurs at some position |
| Education.SliceOfTail | client/src/pages/home.tsx:300 | a slice of the tail is the slice of the whole text one position later |
| Education.MissingFirstChar | client/src/pages/home.tsx:300 | a text that lacks the first character of `sub` does not include `sub` |
| Education.Split | client/src/pages/home.tsx:300 | `split` always gives at least one piece, so `[0]` is always defined |
| Education.JoinSplit | client/src/pages/home.tsx:300 | joining the pieces of a split with the separator gives back the original text |
| Education.SplitPiecesFree | client/src/pages/home.tsx:300 | no piece of a split contains the separator |
| Education.SplitJoin | client/src/pages/home.tsx:300 | splitting a join of separator-free pieces gives back the pieces |
| Education.SplitFreeWhole | client/src/pages/home.tsx:300 | a text without the separator splits into itself alone |
| Education.SplitHead | client/src/pages/home.tsx:300 | the first piece is the prefix before the first separator, or the whole text when there is none |
| Education.FirstSegmentUnique | client/src/pages/home.tsx:300 | only one prefix has no separator and ends at the text's end or at a separator |
| Education.BadgeLabelSpec | client/src/pages/home.tsx:300 | the badge is "2025" whenever "Completed" occurs in the year text; otherwise it is exactly the text before the first en dash, or the whole text |
| Education.StaticBadges | client/src/pages/home.tsx:236-263 | the four entries' badges are "2025", "2014", "2008" and "20/05/2024 " (with its trailing space) |
| Education.ResidencyBadge | client/src/pages/home.tsx:240 | "Completed on 02/06/2025" gets the badge "2025" |
| Education.MasterBadge | client/src/pages/home.tsx:246 | "2014–2020 (Graduated on 03/26/2020)" gets the badge "2014" |
| Education.BachelorBadge | client/src/pages/home.tsx:252 | "2008–2012" gets the badge "2008" |
| Education.TrainingBadge | client/src/pages/home.tsx:259 | "20/05/2024 – 21/05/2024" gets the badge "20/05/2024 " |
| Education.BadgeAt | client/src/pages/home.tsx:300 | a period `head – tail` with no 'C' and no earlier dash gets the badge `head` |
| Navigation.ExperienceId | client/src/pages/home.tsx:73-76 | the "Experience" link scrolls to the id "experience" |
| Navigation.EducationId | client/src/pages/home.tsx:73-76 | the "Education" link scrolls to the id "education" |
| Navigation.ContactId | client/src/pages/home.tsx:73-76 | the "Contact" link scrolls to the id "contact" |
| Navigation.NavTargetsAre | client/src/pages/home.tsx:61-108 | the navigation controls scroll to hero, experience, education, contact and contact |
| Navigation.NavTargetsOnPage | client/src/pages/home.tsx:346-359 | every id a navigation control scrolls to belongs to a section of the page (hero, experience, education, contact) |
| Navigation.Menu.constructor | client/src/pages/home.tsx:47 | the menu starts closed |
| Navigation.Menu.Toggle | client/src/pages/home.tsx:86 | the toggle button flips `isOpen` |
| Navigation.Menu.ScrollToSection | client/src/pages/home.tsx:49-55 | scrolls iff the target element exists; then closes the menu, otherwise leaves `isOpen` unchanged |
| Navigation.OpenAndFollow | client/src/pages/home.tsx:99-108 | opening the mobile menu and following any navigation control scrolls the page and leaves the menu closed |

## Left out

- The validation library's e-mail format test is not visible. It is the parameter `isEmail`, and nothing is assumed about it.
- ContactSchema.Validate: lengths count Dafny characters (Unicode scalar values), while JavaScript's `length` counts UTF-16 code units. The two differ for characters outside the Basic Multilingual Plane.
- How errors are rendered next to the fields is not modelled. Neither is the form library re-validating a field as it is edited after a failed submit. The errors are surfaced only as the `Rejected` outcome of `Submit`.
- Writing the submitted data to the console (contact_section.tsx:41) is left out. It is output only, and `Accepted(record)` carries the same data.
- How the toast is displayed is left out. Only the emitted title and description are kept, in a log.
- The smooth `scrollIntoView` call is left out; `ScrollToSection` returns only whether it scrolled.
- Navigation.ToLower: lower-cases only the ASCII letters A–Z, which is all the link labels use. JavaScript's `toLowerCase` covers all of Unicode.
- Education.Split: models `split` for the single-character separator the page uses, not the general string or regex separator.
- Layout, styling, animations and icons are left out, including the menu/close icon that shows `isOpen`. None of them has logic.
- The static text of the hero, experience and footer sections is left out. Of the education entries, only the year texts are kept.
- The footer's year comes from the clock (home.tsx:339) and is left out.
