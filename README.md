# UNNET landing page and admin console, modelled in Dafny

UNNET is an internet service provider. Its site has two halves, and this
project models the core of both and proves properties of the model.

- **Frontend (React).** A public landing page reads the site settings and
  the package list from the backend. It shows the site title in the
  navigation bar, has a contact form, and has a registration form that
  hands the applicant over to WhatsApp with a prefilled message. An admin
  console behind a fixed password edits the settings, including a Google
  Maps embed from which a direct map link is derived, and adds and
  deletes packages.
- **Backend (actix-web over SQLite).** It keeps three tables: `settings`
  (key to value), `packages` (rowid to name, speed, price and a JSON text
  of features) and `registrations`. `init_db` creates and seeds the first
  two tables. Each HTTP handler runs one statement on the shared
  connection.

## Modules

One Dafny module per source file, plus shared pieces:

- `Opt`: the Option datatype.
- `Records`: the `Setting` and `Package` records shared by both halves.
- `Text`: JavaScript's `trim`, `split`, `includes` and `||` fallback on
  strings.
- `SettingsFold`: the loop that folds a `{key, value}` list into a map.
- `FeaturesJson`: `serde_json` on a list of strings, covering both
  writing and reading.
- `Database` (database.rs): the connection as a class with three table
  fields, `init_db`, and the SQLite rowid rule.
- `Handlers` (main.rs): one method per handler, changing the connection's
  tables.
- `MapEmbed`: the three regular expressions of the map field, written as
  leftmost-match scanners, and the `onChange` handler built on them.
- `Admin` (Admin.tsx): the console as a class whose methods are the
  component's handlers.
- `UseSettings` (useSettings.ts): the settings hook.
- `RegistrationForm` (RegistrationForm.tsx): the WhatsApp message and the
  form's state.
- `Home` (Home.tsx): the title split and fallback.
- `Cta` (CTA.tsx): the contact form's state machine.
- `Integration`: what a page shows once frontend and backend are put
  together.

How some of the source's features are represented:

- **Awaited requests.** A handler that awaits a request is split in two:
  the part up to the `await`, and the part that runs when the request
  settles, which works on the state current at that moment. Other
  handlers may run in between. The outcome is a parameter of the second
  part, or the choice of which part runs:
  - `posted` says the request resolved (no HTTP status is checked);
  - a fetch that returns data takes an `Option`, with `None` for a
    thrown request;
  - the console's settings saves stay in a list of requests in flight
    until `SettingSaved` or `SettingFailed` settles one of them, in any
    order.
- **The clock.** `datetime('now')` is the parameter `now`.
- **`confirm`.** The answer is the parameter `confirmed`.
- **`window.open`.** The URL it would open is returned.
- **`required` controls.** The browser fires a form's submit event only
  when every `required` control has a value. The two forms' `Submit`
  methods therefore send nothing while a required field is empty. The
  browser's own message and focus change are not modelled.
- **`__proto__`.** Assigning `obj["__proto__"] = value` with a string
  value creates no property in JavaScript, so folding a settings list
  skips that key. The backend stores it like any other.
- **`undefined`.** A settings value of `undefined` is an absent key. An
  optional prop that is `undefined` is `None`.
- **The `registrations` table.** `init_db` never creates it, so the
  connection holds it as an `Option`. `save_registration` and
  `get_registrations` panic when it is absent.

## Model

| member | source | states |
|---|---|---|
| Records.Lookup | frontend/src/pages/Admin.tsx:185 | reading `settings[key]` gives a value exactly when the key is present, and then the stored value |
| Text.TrimSpec | frontend/src/pages/Admin.tsx:89 | `trim` removes exactly the leading and trailing white space: the result is a slice of the input, what it cuts is all space, and the result neither starts nor ends with a space |
| Text.TrimAllSpace | frontend/src/pages/Admin.tsx:89 | a piece made only of white space trims to the empty string |
| Text.TrimFixed | frontend/src/pages/Admin.tsx:89 | a string with no space at either end is its own trim |
| Text.Split | frontend/src/pages/Admin.tsx:89 | `split(',')` gives at least one piece, no piece holds the separator, and joining the pieces with it gives back the input |
| Text.SplitJoin | frontend/src/pages/Admin.tsx:89 | splitting undoes joining for pieces free of the separator |
| Text.SplitAppend | frontend/src/pages/Admin.tsx:89 | splitting at a separator gives the pieces before it followed by the pieces after it |
| Text.IndexOf | frontend/src/pages/Admin.tsx:289 | the first position at or after `from` where the pattern occurs, and no earlier one |
| Text.IncludesIff | frontend/src/pages/Admin.tsx:289 | `includes` holds exactly when the pattern occurs at some position |
| Text.OrElse | frontend/src/components/RegistrationForm.tsx:26 | `v \|\| fallback`: the value when it is present and non-empty, the fallback otherwise |
| SettingsFold.FoldSpec | frontend/src/pages/Admin.tsx:50-51 | after the loop, the keys are the starting keys plus the listed keys other than `__proto__`; each such listed key holds the value of its last occurrence; other keys, `__proto__` among them, keep their value |
| SettingsFold.FoldLoop | frontend/src/pages/Admin.tsx:51 | the `forEach` assignment loop, where an assignment to `__proto__` creates nothing, computes the fold |
| SettingsFold.SpreadIsFold | frontend/src/hooks/useSettings.ts:32-34 | folding into a fresh object and spreading it over the previous settings is the same as folding into the previous settings |
| SettingsFold.FoldDistinct | frontend/src/pages/Admin.tsx:47-53 | for a list with distinct keys, the fold maps each listed key other than `__proto__` to its value and holds no other key |
| FeaturesJson.Quote | backend/src/main.rs:87 | only the shape of a written string literal: it opens with a quote and is at least two characters long; that the escaping is right is stated by `FeaturesJson.RoundTrip` |
| FeaturesJson.FeaturesOf | backend/src/main.rs:77 | `from_str(...).unwrap_or_default()`: the decoded list when the text parses, the empty list otherwise |
| FeaturesJson.RoundTrip | backend/src/main.rs:77-87 | decoding the compact JSON that `to_string` writes for any list of strings gives back that list |
| FeaturesJson.FeaturesRoundTrip | backend/src/main.rs:77-87 | the features a package is saved with are the features read back |
| Database.Connection.Open | backend/src/database.rs:20 | opening a file gives its tables as they are |
| Database.NextRowid | backend/src/database.rs:31-33 | the rowid of an insert is one more than the largest id in use, or 1 in an empty table, so it is unused and above every id |
| Database.InsertAllOrIgnoreSpec | backend/src/database.rs:53-58 | after the `INSERT OR IGNORE` loop every listed key is present; present keys keep their value; other keys stay absent; a missing key gets its first listed value |
| Database.DefaultKeysDistinct | backend/src/database.rs:42-51 | the eight default keys are distinct |
| Database.SeedSettingsSpec | backend/src/database.rs:41-58 | after seeding all eight default keys exist; stored values are never overwritten; keys outside the defaults are not touched; a missing key gets its default |
| Database.InsertAllPresent | backend/src/database.rs:55 | ignoring inserts of keys that are all present change nothing |
| Database.SeedPackagesSpec | backend/src/database.rs:61-76 | the package table gets exactly the four seed rows, under ids 1 to 4, exactly when it was empty; a non-empty table is unchanged |
| Database.SeedIdempotent | backend/src/database.rs:41-76 | seeding twice leaves the same tables as seeding once |
| Database.InitDb | backend/src/database.rs:19-79 | `init_db` seeds settings and packages as above and leaves the registrations table alone |
| Database.SeedSettingRows | backend/src/database.rs:53-58 | the insert loop over the default settings computes the seeded settings |
| Database.SeedPackageRows | backend/src/database.rs:62-76 | on an empty table the insert loop gives each seed row the next rowid, 1 to 4 |
| Handlers.UpsertSpec | backend/src/main.rs:61-64 | `INSERT OR REPLACE` maps the key to the value, leaves every other key as it was, and adds at most one entry (none when the key existed) |
| Handlers.UpdateSetting | backend/src/main.rs:59-66 | `update_setting` upserts the setting, touches no other table, and replies `Setting updated` |
| Handlers.GetSettings | backend/src/main.rs:45-57 | every stored setting comes back exactly once with its stored value, and nothing else does |
| Handlers.RowRoundTrip | backend/src/main.rs:72-77 | a package stored as a row reads back as the same package with the row's id |
| Handlers.AscendingIds | backend/src/main.rs:70 | a table's ids, each once, in ascending order |
| Handlers.GetPackages | backend/src/main.rs:68-83 | one package per row, each built from its row with the features decoded, in ascending id order, with every row present |
| Handlers.SavedSpec | backend/src/main.rs:89-98 | with a known id the row is replaced and no row added; with an unknown id nothing changes; without an id exactly one row is added under an unused id and the other rows are unchanged |
| Handlers.SavePackage | backend/src/main.rs:85-101 | `save_package` updates by id or inserts under the next rowid, and replies `Package saved` |
| Handlers.DeletePackage | backend/src/main.rs:103-108 | `delete_package` removes the row with that id, if there is one, and replies `Package deleted` either way |
| Handlers.DeleteSpec | backend/src/main.rs:106 | only the row with that id goes; an unknown id leaves the table unchanged |
| Handlers.SaveRegistration | backend/src/main.rs:110-121 | exactly one row is appended, with the next rowid, the form's fields and the current time; without the table the handler panics and nothing changes |
| Handlers.TextLeTotal | backend/src/main.rs:125 | the text order used by `ORDER BY` relates any two texts |
| Handlers.TextLeTransitive | backend/src/main.rs:125 | that order is transitive |
| Handlers.InsertNewestFirst | backend/src/main.rs:125 | inserting a row into the sorted rows adds exactly that row |
| Handlers.InsertKeepsOrder | backend/src/main.rs:125 | inserting keeps the rows newest first |
| Handlers.GetRegistrations | backend/src/main.rs:123-140 | the stored rows, none lost or added, sorted by `created_at` descending; no table gives a panic |
| MapEmbed.FirstSrc | frontend/src/pages/Admin.tsx:286 | the leftmost position where `src="([^"]+)"` matches |
| MapEmbed.SrcCaptureSpec | frontend/src/pages/Admin.tsx:286-287 | there is a capture exactly when the pattern matches somewhere; it is non-empty and quote-free, and sits between `src="` and a quote at the leftmost match |
| MapEmbed.EmbedUrl | frontend/src/pages/Admin.tsx:285-287 | the capture when there is one, otherwise the whole input |
| MapEmbed.RunEnd | frontend/src/pages/Admin.tsx:291-292 | the greedy `[...]+` run ends at the first character outside the class |
| MapEmbed.FirstTag | frontend/src/pages/Admin.tsx:291-292 | the leftmost position where the tag is followed by a class character |
| MapEmbed.TagCaptureSpec | frontend/src/pages/Admin.tsx:291-295 | there is a capture exactly when the tag pattern matches somewhere; it is non-empty, made of class characters, follows the leftmost match and is maximal |
| MapEmbed.CaptureAtFirst | frontend/src/pages/Admin.tsx:291-292 | the run after the leftmost matching tag is the capture there |
| MapEmbed.NegativeLongitude | frontend/src/pages/Admin.tsx:291 | since the `!2d` class has no `-`, a URL whose every `!2d` is followed by `-` has no longitude |
| MapEmbed.ApplyMapInputSpec | frontend/src/pages/Admin.tsx:284-299 | only the two map keys can change; without the embed marker nothing changes; with it the embed key becomes the URL, and the direct key becomes the search link exactly when both coordinates are captured, otherwise it is left as it was |
| Admin.ParseFeaturesClean | frontend/src/pages/Admin.tsx:89 | every parsed feature is non-empty, has no comma and no surrounding space |
| Admin.ParsePiece | frontend/src/pages/Admin.tsx:89 | text without a comma gives its trimmed self as the one feature, or none when that is empty |
| Admin.ParseFeaturesAppend | frontend/src/pages/Admin.tsx:89 | the features keep the text's order: those of the text before a comma, then those after it |
| Admin.BlankFeatures | frontend/src/pages/Admin.tsx:89 | empty or blank text yields no features |
| Admin.ParseJoined | frontend/src/pages/Admin.tsx:89 | features that are already clean, joined with commas, parse back to themselves |
| Admin.ResolveSpec | frontend/src/pages/Admin.tsx:79 | a resolved save sets its key to the captured value, or unsets it for `undefined`, and leaves every other key of the current settings as it is |
| Admin.WriteBack | frontend/src/pages/Admin.tsx:185 | writing a key's own current value back, absent or not, changes nothing |
| Admin.ResolveOverwritesEdit | frontend/src/pages/Admin.tsx:72-79 | what is typed into a field while its save is in flight is lost when the save resolves |
| Admin.ResolvesCommute | frontend/src/pages/Admin.tsx:305-308 | saves of two different keys give the same settings whichever resolves first; of two saves of one key, the later resolution wins |
| Admin.MapPairResolvesIdle | frontend/src/pages/Admin.tsx:305-308 | with no edit before both map saves resolve, in either order the settings end as they were at the click |
| Admin.DeleteTarget | frontend/src/pages/Admin.tsx:395 | the trash button calls the handler exactly for an id that is present and not 0 |
| Admin.FetchRebuilds | frontend/src/pages/Admin.tsx:50-54 | after a load the settings hold exactly the response's keys less `__proto__`, each with its last value; keys missing from the response are gone |
| Admin.AdminConsole.constructor | frontend/src/pages/Admin.tsx:21-31 | signed out, not loading, no settings, no packages, an empty draft, an empty features text and no save in flight |
| Admin.AdminConsole.Login | frontend/src/pages/Admin.tsx:63-70 | signed in exactly when the password is `admin123` (or already signed in); any other password changes nothing; a new sign-in starts a load |
| Admin.AdminConsole.Logout | frontend/src/pages/Admin.tsx:158 | clears only the signed-in flag |
| Admin.AdminConsole.StartFetch | frontend/src/pages/Admin.tsx:41-42 | `fetchData` sets loading and nothing else |
| Admin.AdminConsole.FinishFetch | frontend/src/pages/Admin.tsx:43-60 | with both responses the settings are rebuilt from the list alone and the packages replaced wholesale; on failure both stay; loading ends either way |
| Admin.AdminConsole.EditSetting | frontend/src/pages/Admin.tsx:183 | typing writes one key of the settings |
| Admin.AdminConsole.UpdateSetting | frontend/src/pages/Admin.tsx:72-78 | the body with the value captured at the call is sent and joins the saves in flight; the settings do not change yet |
| Admin.AdminConsole.SettingSaved | frontend/src/pages/Admin.tsx:79 | a resolved save leaves the saves in flight and writes its captured value into the settings as they are at that moment |
| Admin.AdminConsole.SettingFailed | frontend/src/pages/Admin.tsx:81-84 | a thrown save leaves the saves in flight and changes no setting |
| Admin.AdminConsole.SaveField | frontend/src/pages/Admin.tsx:185 | a save button sends the field's value at the click and queues that body; the settings do not change yet |
| Admin.AdminConsole.SaveMapPair | frontend/src/pages/Admin.tsx:305-308 | the map save button sends the embed URL and the direct link as they stood at the click; both requests are in flight together |
| Admin.AdminConsole.MapEmbedChanged | frontend/src/pages/Admin.tsx:283-300 | the map field's change applies the embed parser to the settings and touches nothing else |
| Admin.AdminConsole.EditDraft | frontend/src/pages/Admin.tsx:350-363 | typing changes one field of the draft |
| Admin.AdminConsole.EditFeaturesInput | frontend/src/pages/Admin.tsx:368-369 | typing replaces the features text |
| Admin.AdminConsole.AddPackage | frontend/src/pages/Admin.tsx:87-94 | the draft is sent with no field check, with its features parsed from the text and no id; nothing changes yet |
| Admin.AdminConsole.PackageAdded | frontend/src/pages/Admin.tsx:95-97 | a resolved add resets the draft and the text, whatever was typed meanwhile, and starts a reload; nothing else changes |
| Admin.AdminConsole.DeletePackage | frontend/src/pages/Admin.tsx:105-108 | with the trash button's id check (line 395), a delete is sent exactly when the confirmation is accepted and the id is present and not 0, and then for that id |
| UseSettings.DefaultsShape | frontend/src/hooks/useSettings.ts:16-25 | there are eight defaults, with the two map links empty and the title `UNNET` |
| UseSettings.MergeSpec | frontend/src/hooks/useSettings.ts:32-34 | the merge holds the previous keys and the fetched keys other than `__proto__`; such a fetched key takes the value of its last occurrence; a previous key the response does not mention keeps its value |
| UseSettings.MergeDefaults | frontend/src/hooks/useSettings.ts:16-34 | merged into the defaults, all eight keys stay, keys outside the defaults come through from the response and only from it, and `__proto__` never appears |
| UseSettings.SettingsHook.constructor | frontend/src/hooks/useSettings.ts:16-26 | the hook starts with the defaults and loading |
| UseSettings.SettingsHook.Complete | frontend/src/hooks/useSettings.ts:28-38 | a parsed response is merged over the settings; a failed one keeps them; loading ends either way |
| RegistrationForm.InitialForm | frontend/src/components/RegistrationForm.tsx:22-28 | empty fields, with the package field `selectedPackage \|\| ''` |
| RegistrationForm.FindByName | frontend/src/components/RegistrationForm.tsx:55 | `find` gives the first package with that name, or none when no package has it |
| RegistrationForm.FindPrefix | frontend/src/components/RegistrationForm.tsx:55 | once a prefix of the list has a match, later packages do not change the result of `find` |
| RegistrationForm.MessageIgnoresLater | frontend/src/components/RegistrationForm.tsx:55-56 | packages after the first match do not change the message |
| RegistrationForm.MessageWithoutMatch | frontend/src/components/RegistrationForm.tsx:56 | with no package of the chosen name, the message has no package details |
| RegistrationForm.MessageWithMatch | frontend/src/components/RegistrationForm.tsx:55-56 | with a first match, its speed and price follow the package line |
| RegistrationForm.MessageNotes | frontend/src/components/RegistrationForm.tsx:56 | non-empty notes add exactly one `Catatan` line at the end |
| RegistrationForm.MessageDefaultName | frontend/src/components/RegistrationForm.tsx:56 | a missing or empty site name greets with `UNNET` |
| RegistrationForm.UnlistedPackageBlocks | frontend/src/components/RegistrationForm.tsx:143-155 | a package field naming no listed package leaves the placeholder selected, and the form cannot be sent |
| RegistrationForm.Form.constructor | frontend/src/components/RegistrationForm.tsx:22-30 | the initial form, not loading, no dialog, no submission and no timer |
| RegistrationForm.Form.Edit | frontend/src/components/RegistrationForm.tsx:22-28 | field edits change only the data |
| RegistrationForm.Form.SelectedPackageChanged | frontend/src/components/RegistrationForm.tsx:32-36 | a truthy selection overwrites only the package field; a falsy one changes nothing |
| RegistrationForm.Form.Submit | frontend/src/components/RegistrationForm.tsx:38-48 | while loading the disabled button (line 175) sends nothing and changes nothing, and so does a form with an empty name, phone or address or no listed package chosen (the `required` controls at lines 97-157); otherwise the form is posted as it stands, loading starts and the submission keeps that data and the current props |
| RegistrationForm.Form.Settled | frontend/src/components/RegistrationForm.tsx:50-74 | a resolved post shows the dialog, arms the timer and keeps the submission; a thrown one ends loading and drops it, keeping the data with no dialog |
| RegistrationForm.Form.CloseDialog | frontend/src/components/RegistrationForm.tsx:196 | closing the dialog hides it and leaves the timer armed, the submission and the data as they were |
| RegistrationForm.Form.Redirect | frontend/src/components/RegistrationForm.tsx:54-69 | opens `https://wa.me/<number>?text=<message>` built from the posted data and the props of the submission, whatever was typed since, then clears every field, the package included, and ends loading, the timer and the dialog |
| Home.Substring | frontend/src/pages/Home.tsx:26 | JavaScript's `substring` never yields more than the string |
| Home.Split2Spec | frontend/src/pages/Home.tsx:24-29 | the two parts put together give a non-empty title; an empty title shows `UN` plain and `NET` as the accent; the plain part is the first two characters, or the whole of a shorter title |
| Home.SiteTitleSpec | frontend/src/pages/Home.tsx:88-99 | the title handed to the navigation bar is never empty: the stored title when set, otherwise `UNNET` |
| Cta.ContactForm.constructor | frontend/src/components/CTA.tsx:7-9 | empty fields with package `starter`; neither submitting nor submitted |
| Cta.ContactForm.Edit | frontend/src/components/CTA.tsx:7 | editing changes only the data |
| Cta.ContactForm.Submit | frontend/src/components/CTA.tsx:11-20 | nothing is sent while a request is outstanding, once submitted, or while the required name, phone or address (lines 117-145) is empty; otherwise the data is sent and the form is submitting |
| Cta.InitialNotFilled | frontend/src/components/CTA.tsx:7-9 | the form as it starts cannot be sent: its required fields are empty |
| Cta.ContactForm.Resolve | frontend/src/components/CTA.tsx:21-28 | a resolved request shows the success panel and resets the form; a thrown one changes neither; the request is no longer outstanding either way |
| Cta.ContactForm.SubmitAgain | frontend/src/components/CTA.tsx:109 | "Daftar Lagi" clears only the submitted flag |
| Integration.FetchedSettingsMatchStore | frontend/src/pages/Admin.tsx:50-53 | folding any answer of `get_settings` gives back the stored table less a `__proto__` row, whatever the row order |
| Integration.SameDefaultKeys | frontend/src/hooks/useSettings.ts:16-25 | the frontend's eight defaults have the same keys as the backend's seed list |
| Integration.SeededHasDefaultKeys | backend/src/database.rs:42-58 | a seeded table has every frontend default key |
| Integration.OverlayCovers | frontend/src/hooks/useSettings.ts:34 | an overlay with every key of the base replaces it entirely |
| Integration.HookShowsStore | frontend/src/hooks/useSettings.ts:32-34 | once the database is seeded, the hook shows exactly the stored settings, less a `__proto__` row |
| Integration.AddedPackageReadBack | frontend/src/pages/Admin.tsx:89-93 | a package added in the console is stored as one new row, and reads back as the draft with the parsed features and the new id |

## Left out

- Network and browser I/O (`fetch`, `alert`, `confirm`, `window.open`,
  `setTimeout`, `console`) are not modelled. Their outcomes are
  parameters, and no HTTP status is checked, as in the code.
- React rendering, styling and animation are not modelled: the JSX,
  Tailwind classes, framer-motion, `ThreeBackground.tsx`, the static
  sections and the `App.tsx` routing and theme toggle. `Home`'s loading
  timer is also left out.
- actix routing, CORS and the `Mutex` around the connection are not
  modelled. Handlers run one at a time, and a poisoned lock is not
  modelled.
- `unwrap` panics are not modelled, except the one caused by the missing
  registrations table.
- `contact_message` (backend/src/main.rs:31-43) is not modelled: it only
  logs the form and returns a fixed reply.
- The `println!` logging in `save_registration` is not modelled.
- The registrations table's schema is not in the source. The model
  assumes an integer primary key, so a new row gets the next rowid.
- SQLite internals are not modelled. A rowid past the 64-bit maximum, the
  `i32` width of ids and counts, and SQLite's actual scan order are
  integers and sets here.
- Handlers.GetSettings: the order of the rows is left unspecified. Only
  that each stored row comes back once is stated.
- Handlers.GetPackages: the ascending id order of a rowid scan is
  assumed. SQL does not promise it without `ORDER BY`.
- Handlers.GetRegistrations: the relative order of rows with equal
  `created_at` is not stated.
- FeaturesJson: only a list of strings is modelled, not `serde_json` in
  general. Numbers, objects, nesting and non-string items are rejected as
  unreadable, which `unwrap_or_default` turns into the empty list.
- The four seed features texts (backend/src/database.rs:64-67) are not
  proved to decode. Only the round trip of what `save_package` writes is
  proved; how the hand-written seed texts read back is not stated.
- JavaScript strings are UTF-16, but the model treats them as sequences
  of characters. `substring` and the scanners index by character.
  Astral characters therefore count differently.
- The client takes packages from the server as they are. Their shape is
  not validated, and neither is the model's.
- Only the three regular expressions the console uses are modelled, as
  scanners. General regular expressions are not.
- Admin.AdminConsole.AddPackage and Admin.AdminConsole.DeletePackage: a
  thrown request takes no step after the send; the `alert` it shows is
  not modelled. A resolved delete goes on to `StartFetch`.
- The code has no login lockout, failed-attempt counter, persisted
  session or per-field save status, so none of these is modelled.
