# C&J Provider Services site scripts in Dafny

This project models the browser-side behaviour of the C&J Provider Services
marketing site. The models are written in Dafny and verified.

The DOM is abstracted. An element is a record of:
- its attributes, a string map in which an absent key reads as `""`;
- its classes, a set;
- a few layout facts.

A page is an array or a sequence of such records in document order.

Events become named methods with explicit inputs. These include:
- an intersection batch;
- a scroll position;
- an image or video error;
- a key press;
- a submit;
- a filter click.

Every loop over an array is proved against a pure function of the old state. So is the whole document-ready body of `js/lazy-loading.js` (`LazyLoading.LazyLoader.Start`). The handlers of the video player and of the feedback banner state their new fields directly, since the source keeps no value there that a function could compute.

| file | module | source |
|---|---|---|
| `text.dfy` | `Text` | JavaScript `trim`, `includes`, `endsWith`, one-character `replace`, `join`, jQuery `.text()` over several elements |
| `patterns.dfy` | `Patterns` | the email pattern `^[^\s@]+@[^\s@]+\.[^\s@]+$` and the phone pattern `^[0-9()\-\s+]{10,15}$` as predicates |
| `dom.dfy` | `Dom` | elements, images, attribute reads |
| `lazy_loading.dfy` | `LazyLoading` | `js/lazy-loading.js`: preload, snapshot, intersection and viewport resolution, placeholder conversion, error fallback |
| `lazy_loading_simple.dfy` | `LazyLoadingSimple` | `js/lazy-loading-simple.js` |
| `lazy_loading_fix.dfy` | `LazyLoadingFix` | `js/lazy-loading-fix.js` |
| `form_validation.dfy` | `FormValidation` | `js/form-validation.js`: field rules, form-group classes, error messages, submit, feedback banner |
| `main_script.dfy` | `MainScript` | `js/main.js`: navbar and back-to-top on scroll, gallery filter, quick submit check, showcase video |
| `accessibility.dfy` | `Accessibility` | `js/accessibility.js`: skip link, control labels, service-card and social-link labels, Enter/Space |
| `schema.dfy` | `SchemaInjection` | `js/schema.js`: JSON-LD schema selection and `createSchemaScript` |

How the source's state is represented:
- Loops that update elements in place are methods over `array`s. Each has loop invariants, and its `ensures` ties every element to the function of its old value.
- The one-time state of a script is a class field. Examples are the preload counter, the observed set, the registered scroll listeners, the feedback banner and the video player.
- Decision rules are functions with named results. Their properties are lemmas.

## Where the model follows the code over its comments and documentation

- **Eager preload leaves `srcset` alone.** The preload in `js/lazy-loading.js:19-27` copies only `src`; intersection and the viewport test also copy `data-srcset`.
- **Fallback listeners are removed only when the snapshot is empty** (`js/lazy-loading.js:89-93`). The snapshot is never shrunk, so with any lazy image the scroll listeners stay. `LazyLoading.LazyLoader.LazyLoad` states this.
- **Later scrolls undo the error fallback.** Every scroll on the fallback path resolves every snapshot image in view again, including loaded ones. After an image has failed and received the fallback, the next scroll puts the failing `data-src` back. Because `error-handled` is already set, the next error no longer substitutes anything (`LazyLoading.RescanUndoesErrorFallback`).
- **Converted images are never resolved by this script.** Conversion runs after the snapshot was taken, so the `data-src` it adds is never observed or scanned. The first fallback scan runs after the conversion, from a timer, but the two touch disjoint images, so their order does not matter (`LazyLoading.ScanCommutesWithConversion`).
- **Service-card labels use every `h3`.** The label comes from jQuery's `.text()` of all `h3` descendants, concatenated and then trimmed, not from the first heading only (`js/accessibility.js:141-142`). A card whose headings are blank gets the label `" service information"`, with no `Service`.
- **The two submit handlers read the email differently.**
  - The quick handler in `js/main.js` tests the email pattern on the untrimmed value: a padded address is refused (`MainScript.LeadingSpaceEmailRefused`).
  - The validator in `js/form-validation.js` trims first: the same address is accepted (`FormValidation.PaddedEmailAccepted`).
- **A corrected field keeps a dangling `aria-describedby`.** Validation removes the old `.error-message` but never restores `aria-describedby`, so a field that was invalid and is then corrected still names the removed `id-error` element (`FormValidation.CorrectedFieldKeepsStaleLink`).
- **`fa-social-media` reads like a missing icon.** Only the first dash of the capture becomes a space, so the class `fa-social-media` gives the same label as a link with no icon (`Accessibility.SocialMediaLabel`).
- **Switching videos can leave a stale pause icon.** `video.load()` pauses a playing element without firing `pause`. If the primary source fails during playback, the video is left paused behind the pause icon (`MainScript.VideoPlayer.OnError`).
- **The `pathname` guards change nothing.** The guards in `js/schema.js:177` and `:188` are redundant, because an empty pathname passes none of the tests (`SchemaInjection.EmptyPathnameGuardRedundant`).

## Model

| member | source | states |
|---|---|---|
| Text.Trim | js/form-validation.js:154 | the trimmed value is the text between the leading and the trailing white space; it neither starts nor ends with white space and is never longer than the input |
| Text.TrimEmptyIffAllSpace | js/main.js:250-254 | `!value.trim()` holds exactly when the value is white space only |
| Text.TrimIdempotent | js/form-validation.js:154-157 | trimming an already trimmed value changes nothing |
| Text.IndexOf | js/accessibility.js:186 | the position of the first occurrence of a character, or the length when it does not occur |
| Text.ReplaceFirst | js/accessibility.js:186 | `replace('-', ' ')` changes only the first dash and keeps the length |
| Text.TrimPadded | js/form-validation.js:154-168 | trimming removes exactly the white space around a text that neither starts nor ends with white space |
| Text.JoinLength | js/main.js:257 | the length of `join(', ')` is the parts' lengths plus one separator per pair of neighbours |
| Text.JoinPart | js/main.js:257 | every part appears in the joined text, in order, at its offset |
| Text.JoinSeparator | js/main.js:257 | exactly one separator stands between each part and the next |
| Text.Concat | js/accessibility.js:142 | the text of several headings is as long as all of them together |
| Patterns.EmailShape | js/form-validation.js:164 | an address the email pattern accepts has no white space, exactly one `@`, and at least five characters |
| Patterns.EmailIsTrimmed | js/form-validation.js:164-168 | an accepted address is its own trim |
| Patterns.PaddedEmail | js/main.js:263-264 | a padded address passes after trimming but fails untrimmed |
| Patterns.PaddedEmailRefusedUntrimmed | js/main.js:263-264 | trimming an accepted address padded with white space gives the address back, and the untrimmed text is refused |
| LazyLoading.Preload | js/lazy-loading.js:19-27 | only an image in one of the first three gallery items with a non-empty `data-src` changes: `src` takes `data-src`, `loaded` is added, nothing else changes |
| LazyLoading.PreloadAll | js/lazy-loading.js:19-27 | the preload pass applies the per-image rule to every image and keeps their order |
| LazyLoading.LazyLoader.PreloadCriticalImages | js/lazy-loading.js:17-28 | the page becomes the preloaded page and `loadedImagesCount` rises by exactly the number of preloaded images |
| LazyLoading.PendingFrom | js/lazy-loading.js:34 | the snapshot lists, in increasing document order, exactly the images with a `data-src` attribute and without `loaded` |
| LazyLoading.Snapshot | js/lazy-loading.js:34 | every snapshot index names an image of the page |
| LazyLoading.EagerXorObserved | js/lazy-loading.js:31-34 | a pending image is preloaded iff it is missing from the snapshot taken after the preload: it is never both loaded eagerly and observed, and never neither |
| LazyLoading.LazyLoader.TakeSnapshot | js/lazy-loading.js:34 | `lazyImages` becomes the snapshot of the current page |
| LazyLoading.LazyLoader.ObserveAll | js/lazy-loading.js:60-62 | every snapshot image is added to the observed set |
| LazyLoading.Resolve | js/lazy-loading.js:40-52 | with a non-empty `data-src`: `src` takes it, `srcset` takes a non-empty `data-srcset`, `loaded` is added and no other attribute changes; otherwise the image is unchanged |
| LazyLoading.ResolveIdempotent | js/lazy-loading.js:75-87 | resolving an already resolved image writes the same values |
| LazyLoading.LazyLoader.OnIntersection | js/lazy-loading.js:38-54 | images with an intersecting entry are resolved and the others are unchanged; exactly those with a non-empty `data-src` are unobserved |
| LazyLoading.FallbackPass | js/lazy-loading.js:75-87 | an image is resolved iff it is in the snapshot and `offsetTop < innerHeight + scrollTop`, strictly |
| LazyLoading.FallbackPassIdempotent | js/lazy-loading.js:75-87 | running the debounced body again at the same scroll position changes nothing |
| LazyLoading.LazyLoader.LazyLoad | js/lazy-loading.js:72-94 | the page becomes the fallback pass of the old page; the listeners stay registered unless the snapshot is empty |
| LazyLoading.Convert | js/lazy-loading.js:109-130 | a convertible image gets `data-src` set to its old `src`, moves a non-empty `srcset` into `data-srcset` and clears it, gets the SVG placeholder as `src`, and gets `lazy-load`; every other attribute, such as `onerror` and `alt`, is kept; a skipped image is unchanged |
| LazyLoading.ConvertedIsSkipped | js/lazy-loading.js:105-114 | a converted image is no longer a candidate and would be skipped anyway, so a second conversion is a no-op |
| LazyLoading.LazyLoader.ConvertAt | js/lazy-loading.js:107-131 | one loop step converts one image and leaves the others alone |
| LazyLoading.LazyLoader.ConvertImagesToLazyLoad | js/lazy-loading.js:104-132 | every image becomes its conversion |
| LazyLoading.ScanCommutesWithConversion | js/lazy-loading.js:72-137 | scanning the snapshot and converting the page give the same page in either order |
| LazyLoading.QuotedFrom | js/lazy-loading.js:160 | the lazy group `(.+?)'` ends at the first quote after at least one character, and crosses no line terminator |
| LazyLoading.CaptureAt | js/lazy-loading.js:160 | a match at a position is `this.src='`, then a non-empty capture without line terminators, then a closing quote |
| LazyLoading.QuotedComplete | js/lazy-loading.js:160 | the lazy group finds a capture whenever a quote follows with no line terminator in front of it |
| LazyLoading.CaptureComplete | js/lazy-loading.js:160 | `this.src='`, at least one character and a quote on the same line always make a match at that position |
| LazyLoading.CaptureSpan | js/lazy-loading.js:160 | every match spans `this.src='`, its capture and a closing quote on one line |
| LazyLoading.NoInlineFallback | js/lazy-loading.js:160-161 | the handler gives no capture iff it holds no `this.src='` followed by at least one character and a quote on the same line |
| LazyLoading.FindFrom | js/lazy-loading.js:160 | finds the leftmost position at which the pattern matches, or reports that there is none |
| LazyLoading.InlineFallback | js/lazy-loading.js:160-161 | the capture is the one of the leftmost match, and there is none exactly when no position matches |
| LazyLoading.ErrorFallback | js/lazy-loading.js:153-168 | the first error adds `error-handled` and sets `src` to the inline handler's target, or to `img/1.jpg` without one; with `error-handled` already set nothing changes |
| LazyLoading.ErrorFallbackOnce | js/lazy-loading.js:155-156 | a second error changes nothing, so the fallback is substituted at most once |
| LazyLoading.LazyLoader.OnError | js/lazy-loading.js:153-169 | the failing image becomes its error fallback and the other images are unchanged |
| LazyLoading.RescanUndoesErrorFallback | js/lazy-loading.js:75-87 | after resolve, error and another scroll, a visible image has its failing `data-src` back, and a later error leaves it there |
| LazyLoading.LazyLoader.Start | js/lazy-loading.js:13-137 | the page becomes the preloaded page, then converted on a fresh load, then scanned once when there is no observer; the counter rises by the number of preloaded images. The snapshot is taken after the preload, and preloaded and snapshot images are disjoint. The snapshot is observed when the observer exists; otherwise the listeners stay registered iff the snapshot is non-empty |
| LazyLoadingSimple.SimpleResolve | js/lazy-loading-simple.js:17-24 | a non-empty `data-src` becomes `src` and `loaded` is added; no other attribute changes; an empty one leaves the image untouched |
| LazyLoadingSimple.SimpleLoader.ResolveAll | js/lazy-loading-simple.js:17-24 | every image is resolved by that rule |
| LazyLoadingSimple.GuardedFallback | js/lazy-loading-simple.js:27-36 | the first error adds `error-handled` and makes `src` equal to `img/1.jpg`; with `error-handled` set nothing changes |
| LazyLoadingSimple.SimpleLoader.OnError | js/lazy-loading-simple.js:27-36 | the failing image takes the guarded fallback and the others are unchanged |
| LazyLoadingSimple.SimpleResolveIdempotent | js/lazy-loading-simple.js:40-54 | re-resolving a resolved image leaves it unchanged |
| LazyLoadingSimple.SimpleLoader.ObserveAll | js/lazy-loading-simple.js:53-55 | every image with a `data-src` attribute is observed, resolved or not |
| LazyLoadingSimple.SimpleLoader.OnIntersection | js/lazy-loading-simple.js:40-51 | intersecting images are resolved, the others are unchanged, and the resolved ones are unobserved |
| LazyLoadingSimple.SimpleLoader.Start | js/lazy-loading-simple.js:15-56 | every image is resolved, then every `img[data-src]` is observed when the observer exists |
| LazyLoadingSimple.SrcsetUntouched | js/lazy-loading-simple.js:17-56 | over any sequence of resolutions and errors, `srcset` and every attribute other than `src` keep their markup values |
| LazyLoadingFix.CopyDataSrc | js/lazy-loading-fix.js:9-15 | a non-empty `data-src` becomes `src`; no class is added and `data-src` stays |
| LazyLoadingFix.FixLoader.CopyAll | js/lazy-loading-fix.js:9-15 | every image becomes its copy |
| LazyLoadingFix.FixLoader.OnError | js/lazy-loading-fix.js:18-25 | the failing image takes the guarded fallback and the others are unchanged |
| LazyLoadingFix.ErrorsAfterFirstAreNoOps | js/lazy-loading-fix.js:20 | any number of errors has the effect of the first one: `img/1.jpg` is substituted at most once |
| FormValidation.FieldRule | js/form-validation.js:152-215 | a field fails exactly when it breaks its rule, and a failing field gets a non-empty message. The rules are: name 2..100 trimmed characters; email non-empty, matching, at most 254; phone matching; subject non-empty; message 10..2000; any other name fails only when required and blank |
| FormValidation.EmailChecksInOrder | js/form-validation.js:163-175 | a matching address over 254 characters gets the length message |
| FormValidation.BlankEmailGetsEnterMessage | js/form-validation.js:163-168 | a blank address also fails the pattern, but gets the first check's message, `Please enter your email address` |
| FormValidation.BlankPhoneGetsEnterMessage | js/form-validation.js:177-183 | a blank phone number also fails the pattern, but gets the first check's message, `Please enter your phone number` |
| FormValidation.BlankMessageGetsEnterMessage | js/form-validation.js:195-200 | a blank message is also under 10 characters, but gets the first check's message, `Please enter your message` |
| FormValidation.FormatBeforeLength | js/form-validation.js:163-175 | an address that fails both the pattern and the length check gets the format message |
| FormValidation.MessageBounds | js/form-validation.js:195-205 | a non-blank message under 10 or over 2000 characters gets the message of the bound it misses |
| FormValidation.PaddedEmailAccepted | js/form-validation.js:163-175 | the email rule trims before matching |
| FormValidation.PaddedEmailAcceptedAll | js/form-validation.js:163-175 | every accepted address of at most 254 characters is accepted with any white space around it, though the untrimmed text fails the pattern |
| FormValidation.AddError | js/form-validation.js:237-275 | the group gains `has-error`, and a message is inserted only when the group has none. A field with an id is then described by `id-error`, which is also the message's id. An empty message becomes `Please check this field`. Without a group nothing changes |
| FormValidation.Validate | js/form-validation.js:120-234 | the verdict is true iff the field has a name, has a group and passes its rule. Without a name or a group the field is unchanged. Otherwise the group shows exactly one verdict class, has an error message iff invalid, and keeps its other classes. A valid field keeps its `aria-describedby` |
| FormValidation.CorrectedFieldKeepsStaleLink | js/form-validation.js:142-145 | a field with an id that was invalid and is then corrected has no message left, but still names `id-error` in `aria-describedby` |
| FormValidation.InvalidFieldIsDescribed | js/form-validation.js:258-270 | an invalid field with an id is linked by `aria-describedby` to its single message, which carries the rule's text |
| FormValidation.ValidateIdempotent | js/form-validation.js:45-51 | validating again on `keyup` and `change` gives the same verdict and field |
| FormValidation.ContactForm.ValidateField | js/form-validation.js:45-51 | one field is validated in place; the others are unchanged |
| FormValidation.ContactForm.OnFocus | js/form-validation.js:19-27 | the field's group gains `focused` |
| FormValidation.ContactForm.OnBlur | js/form-validation.js:28-42 | an empty field's group loses `focused`, and the field is then validated |
| FormValidation.ContactForm.ShowFormFeedback | js/form-validation.js:278-303 | with a type and a message, the earlier banner is replaced by exactly one; otherwise nothing changes |
| FormValidation.ContactForm.ValidateAll | js/form-validation.js:58-70 | every field is validated, none skipped; the form is valid iff every field is |
| FormValidation.ResetField | js/form-validation.js:87-89 | reset restores the field's default value and removes `focused`, `has-error` and `has-success` from the group; all else stays |
| FormValidation.ResetAfterValidClearsGroup | js/form-validation.js:87-89 | after a valid submit no group shows a verdict, `focused` or an error message |
| FormValidation.ContactForm.ResetAll | js/form-validation.js:87-89 | every field is reset |
| FormValidation.ContactForm.Submit | js/form-validation.js:54-110 | the form is valid iff every field is. A valid form is reset and thanked with a `success` banner; an invalid one keeps its validated fields and gets the fix-errors banner. At most one banner exists afterwards |
| MainScript.Toggled | js/main.js:78-84 | the class is present iff switched on; the other classes stay |
| MainScript.ToggleAll | js/main.js:78-84 | every element of the set is toggled |
| MainScript.Page.OnScroll | js/main.js:72-88 | `navbar-shrink` and `active` are present iff `scrollTop > 90`, strictly; other classes stay |
| MainScript.Page.OnFilterClick | js/main.js:194-221 | without `data-filter` nothing changes. Otherwise the clicked button is the only active one, and an item is shown iff the filter is `all` or one of its classes |
| MainScript.BlankIffTrimEmpty | js/main.js:250-254 | a field counts as missing iff its trimmed value is empty |
| MainScript.MissingMembership | js/main.js:249-254 | a label is listed iff one of its entries is blank |
| MainScript.MissingUnfold | js/main.js:249-254 | the list is the five conditional pushes in the order Name, Email, Phone, Subject, Message |
| MainScript.CollectMissing | js/main.js:249-254 | the pushes build exactly the blank fields' labels in form order |
| MainScript.MissingIffBlank | js/main.js:249-254 | each label is listed iff its field is blank |
| MainScript.NotBlank | js/main.js:250-254 | a value starting with a non-space character is not missing |
| MainScript.QuickAlert | js/main.js:256-270 | there is a missing-fields alert iff some field is blank, and it lists them. The thanks come iff nothing is blank and the untrimmed email matches; otherwise the email alert is shown |
| MainScript.BlankNameAndPhone | js/main.js:256-258 | with only name and phone blank, the alert lists `Name`, `Phone` in that order |
| MainScript.NamePhoneText | js/main.js:257 | that alert reads `Please fill in the following fields: Name, Phone` |
| MainScript.LeadingSpaceEmailRefused | js/main.js:262-267 | a filled-in form whose email starts with white space is always refused |
| MainScript.QuickForm.Submit | js/main.js:225-275 | the alert is the one the rule picks; only after the thanks does every field get its default value back, otherwise the values are kept |
| MainScript.FallbackIsNotPrimary | js/main.js:459-461 | the fallback source does not name the primary one |
| MainScript.VideoPlayer.OnError | js/main.js:455-476 | a failing primary source switches to `videos/family.mp4`; any other failure adds one notice when there is a container. Afterwards the current source never names the primary, so the switch cannot repeat. The switch leaves the video paused and the icon as it was, so the icon matches the state only if it was the play icon |
| MainScript.VideoPlayer.OnPlay | js/main.js:396-426 | after `play` the button shows the pause icon and the overlay is hidden |
| MainScript.VideoPlayer.OnPause | js/main.js:406-437 | after `pause` the button shows the play icon and the overlay is shown |
| MainScript.VideoPlayer.OnEnded | js/main.js:440-452 | after `ended` the button shows the play icon and the overlay is shown |
| MainScript.VideoPlayer.OnButtonClick | js/main.js:373-393 | a click plays a paused video, with the pause icon unless the promise is rejected, and pauses a playing one with the play icon. It runs in any state, and a click restores the icon to offer the opposite of the player's state unless the play is rejected |
| MainScript.VideoPlayer.OnLoadStart | js/main.js:479-485 | `loadstart` sets `loading` |
| MainScript.VideoPlayer.OnCanPlay | js/main.js:487-493 | `canplay` clears `loading` |
| Accessibility.SkipLinks | js/accessibility.js:15 | no element carries `skip-link` iff the count is zero |
| Accessibility.SkipLinkAtMostOnce | js/accessibility.js:14-18 | running the block twice is running it once, and a page with a body that had no skip link ends with exactly one |
| Accessibility.LabelControl | js/accessibility.js:108-124 | a control that already has either attribute is untouched. An unlabelled one with an id and a matching label gets `aria-labelledby` `id-label`; otherwise it takes its placeholder as `aria-label`. Other attributes stay |
| Accessibility.LabelControlOutcome | js/accessibility.js:108-124 | after the pass a control is labelled iff it was, or has an id with a label, or has a placeholder; a second pass changes nothing |
| Accessibility.RenameLabel | js/accessibility.js:111-115 | a claimed label takes the id `for-label`, and its other attributes stay |
| Accessibility.Form.constructor | js/accessibility.js:105-111 | the controls and the labels are two fresh, distinct collections holding the given elements, so labelling controls can be called on any new form |
| Accessibility.Form.RenameLabelsFor | js/accessibility.js:111-115 | every label for the id is renamed, and the result says whether one exists |
| Accessibility.Form.LabelOne | js/accessibility.js:106-125 | one control is labelled and its labels renamed; the other controls are unchanged |
| Accessibility.Form.LabelControls | js/accessibility.js:104-132 | every control is labelled as above. A label is renamed iff some unlabelled control has its `for` value as id |
| Accessibility.NoHeadingIsService | js/accessibility.js:141-146 | a card without an `h3` is labelled `Service service information` |
| Accessibility.CardLabelIgnoresPadding | js/accessibility.js:141-146 | white space around a single heading does not reach the label, which is the heading followed by ` service information` |
| Accessibility.BlankHeadingIsNotService | js/accessibility.js:142-146 | headings that are white space only give the bare suffix, not `Service service information` |
| Accessibility.LabelCardAttributes | js/accessibility.js:144-147 | a labelled card has role `region` and the derived label; other attributes stay |
| Accessibility.LabelCardAt | js/accessibility.js:140-147 | one card is labelled and the others are unchanged |
| Accessibility.LabelCards | js/accessibility.js:136-152 | every card is labelled |
| Accessibility.RunFrom | js/accessibility.js:184 | the greedy `[a-z-]+` run stops only at the end or at a character outside the class |
| Accessibility.FirstMatchFrom | js/accessibility.js:184 | finds the leftmost position where `fa-` is followed by a class character |
| Accessibility.FaCapture | js/accessibility.js:184-185 | there is no capture iff nothing matches. Otherwise the capture is the maximal non-empty `[a-z-]` run after the leftmost match |
| Accessibility.FacebookCapture | js/accessibility.js:184 | in `fab fa-facebook-f` the word `fab` does not match, and the capture is `facebook-f` |
| Accessibility.CaptureStopsAtSpace | js/accessibility.js:184 | a capture never contains a space |
| Accessibility.DefaultPlatformCapture | js/accessibility.js:184-186 | a capture becomes the platform name `social media` iff it is `social-media` |
| Accessibility.LaterDashesKept | js/accessibility.js:186 | a second dash of the capture stays in the platform name |
| Accessibility.DashToSpace | js/accessibility.js:186 | the platform is the text before the first dash, a space, and the rest unchanged |
| Accessibility.SocialMediaLabel | js/accessibility.js:178-191 | the label is `Visit our social media page` iff the icon class has no match or its capture is `social-media` |
| Accessibility.NoIconIsSocialMedia | js/accessibility.js:178-191 | a link without an icon is labelled `Visit our social media page` |
| Accessibility.LabelSocialLinkAt | js/accessibility.js:174-195 | one link gets its label and the others are unchanged |
| Accessibility.LabelSocialLinks | js/accessibility.js:172-196 | every link gets its label and keeps its other attributes |
| Accessibility.Keydown | js/accessibility.js:67-70 | the element is clicked, and the default prevented, exactly for `Enter` and `' '` |
| SchemaInjection.SchemasShareLogo | js/schema.js:15-21 | the organization's logo is its URL followed by `/img/logo.svg`, and the local-business image is the same logo |
| SchemaInjection.LogoWithoutOrigin | js/schema.js:15-21 | without an origin the logo is the site-relative path |
| SchemaInjection.Selected | js/schema.js:166-199 | the organization schema comes first and always. The service schema is present iff the pathname contains `services`. The local-business schema is present iff it contains `contact`, is `/`, or ends with `index.html` |
| SchemaInjection.SelectedInOrder | js/schema.js:166-199 | schemas are appended as organization, then service, then local business, each at most once |
| SchemaInjection.EmptyPathnameGuardRedundant | js/schema.js:177-193 | the non-empty pathname guard does not change either decision |
| SchemaInjection.HomePage | js/schema.js:188-196 | the home page gets the organization and local-business schemas only |
| SchemaInjection.Head.CreateSchemaScript | js/schema.js:126-164 | false and nothing appended for a null or non-object argument or a missing head; otherwise true and exactly one `application/ld+json` script holding the schema is appended |
| SchemaInjection.Head.InjectSchemas | js/schema.js:166-199 | with a head, exactly the selected schemas are appended in order; without one nothing is |

## Left out

- Timers:
  - the preloader backup timeout, fades and delays (`js/main.js:10-59`);
  - the 20 ms debounce (`js/lazy-loading.js:68-94`): its body is the single method `LazyLoad`;
  - the 5 s feedback auto-hide (`js/form-validation.js:312-328`).
- Animations and scrolling: smooth scrolling to anchors, the easing curve and the back-to-top animation (`js/main.js:91-131`, `146-161`). These are floating-point animation with no decision beyond the hash test.
- Event wiring: the IntersectionObserver options, `addEventListener` and jQuery `on`. Intersection, scroll, error, focus, blur, keydown, click and submit are explicit method calls with their inputs as parameters.
- Third-party plugins: Magnific Popup, AOS, countUp, Bootstrap tooltips and collapse, and `history.pushState`. They are foreign calls with no visible logic.
- Hover classes on service and testimonial cards (`js/main.js:329-356`), `focus-visible` (`js/accessibility.js:43-55`), and the spinner class. Each is one unconditional class add or remove.
- Constant attribute writes: navigation roles, testimonials, and the `tabindex`/`role` of gallery links and the back-to-top button (`js/accessibility.js:25-36`, `62-64`, `82-88`, `159-165`).
- The injected CSS (`js/lazy-loading.js:140-150`).
- The `performance.navigation.type` gate. It is the boolean parameter `isFreshLoad`.
- `IntersectionObserver` availability is the parameter `observerAvailable`.
- The schema objects' constant fields and `JSON.stringify`: a script holds the schema value. HTML escaping of messages with `$('<div>').text(m).html()` is also left out.
- Host failures behind `try`/`catch`: a throwing jQuery call, `createElement` returning nothing, `JSON.stringify` or `appendChild` throwing, and a `label[for="…"]` selector broken by a quote in an id. Every `catch` path and every console message is left out. This includes the local-business schema without an image (`js/schema.js:116-122`), which only an exception can reach.
- `validateField` and `addError` called without a field (`js/form-validation.js:122-125`, `239-242`): every modelled call has one.
- A non-string message passed to `addError` cannot be expressed, since messages are strings. The empty message is modelled.
- The two `#contactForm` submit handlers both run in the browser. They are modelled as independent operations, without their interleaving.
- Element properties are attribute values:
  - `img.src` is read as the `src` attribute, not the absolute URL the property returns;
  - jQuery `.data('src')` is read as the raw attribute, without jQuery's type conversion of numeric or JSON-looking values.
- The gallery filter uses `'.' + filterValue` as a selector; class membership models it. Values that are not plain class names are not modelled, and neither are the `show`/`hide` animation durations.
- `loadedImagesCount` and `totalLazyImages` are only counted, never read by the script.
- Strings are sequences of characters: UTF-16 surrogate pairs are not modelled.
- MainScript.VideoPlayer.OnError: the new source is taken as the current source at once, without modelling the media element's asynchronous resource selection after `load()`. The inserted notice's text is not modelled, only the count of notices.
- MainScript.VideoPlayer.OnButtonClick: the result of `video.play()` is the parameter `outcome`. The promise's asynchronous settling and the `play`/`pause` events the element fires are not modelled.
- The form groups of `js/form-validation.js`: every field is taken to have a parent of its own, which is also a `.form-group`. Two fields under one parent would share the verdict classes and the one `.error-message`, and a parent that is not a `.form-group` would keep its classes after the reset; neither is modelled.
- The manual clearing fallbacks after `reset()` (`js/form-validation.js:93`, `js/main.js:277`) are left out: a form element always has `reset`, and only an exception could reach the first.
- The video handlers assume the video and its button exist; without them no listener is installed (`js/main.js:367-370`).
