# RandoPony pre-registration, modelled in Dafny

RandoPony is the pre-registration site of a randonneuring club. Riders
sign up in advance for two kinds of event:

- brevets and club events, handled by the `register` app;
- populaires, handled by the `populaires` app.

This project models the business logic of both apps. The web framework,
the database, the mailer and the Google Docs client are left out.

What is modelled:

- **The event records and their time windows** (`RegisterModels`,
  `PopulaireModels`):
  - the display label and the page address;
  - when results are available, when registration closes and when an event has started;
  - the rider's full name;
  - the pre-registration form rules: the captcha check, and the info answer a brevet with a question requires.
- **The views' logic** (`RegisterViews`, `PopulaireViews`):
  - the home page's sorted region list;
  - the populaire list;
  - the view-level start test;
  - pre-registration, as a `Registry` class whose stored riders, id counter and outbox are updated in place: duplicate check, then save, then two messages;
  - the rider address page;
  - the populaire form page, including how the distance field becomes the form's radio choices;
  - the filler photo rule.
- **The background tasks** (`RegisterTasks`, `PopulaireTasks`, `Sheets`):
  - the rider list spreadsheet sync, which rewrites the existing rows and then appends the rest, on a spreadsheet object updated in place;
  - the spreadsheet row contents;
  - the fields of the confirmation and notification messages.
- **The admin actions** (`RegisterAdmin`, `PopulaireAdmin`, `AdminMessages`):
  - creating the missing rider list spreadsheets over an array of events updated in place, with the note it shows;
  - the organizer and webmaster notifiers, which send one message per event until the first failure, and their notes;
  - the organizer address validator.
- **Queryset order** (`Ordering`): a model's `Meta.ordering` as a stable sort of the stored records by one field.
- **The shared helpers** (`Helpers`, `Mail`): the e-mail address obfuscator,
  the template search, comma-separated address lists, and the
  spreadsheet key taken from a document id.
- **The data migrations** (`RegisterMigrations`, `PopulaireMigrations`, `Migration`):
  - per-row rewrites of a table held in an array;
  - round-trip and idempotence lemmas.
- **Python's string, integer and date operations used above** (`Text`, `Calendar`):
  - `split`, `strip`, `join`, `replace`, `lower`, `str()`, `int()` and string comparison;
  - dates as day ordinals and times of day as minutes;
  - `strftime`/`strptime` for the `%d%b%Y` layout.

The clock, the server's time-zone offset in hours, the captcha answer,
the site's sending addresses, the URL resolver, `uuid5`, the Google
client's copy operation and Django's address validator are all parameters
of the model. The offset is 2 in the source (populaires/models.py:16,
register/views.py:90); the populaire windows and the view's start test
are stated for any offset. When a call raises an exception,
the model returns `None` or `false` in its place.

## Model

| member | source | states |
|---|---|---|
| RegisterModels.UrlDate | register/models.py:67-72 | The brevet's page address ends with the nine `%d%b%Y` characters. Reading those characters back gives the brevet's date. |
| RegisterModels.UrlMiddle | register/models.py:67-72 | Between `/register/` and the date, the address holds the region and then the event. The region is omitted for `Club`. |
| RegisterModels.UrlIdentifiesBrevet | register/models.py:17-84 | For the listed regions and the offered event codes, two brevets with the same page address have the same region, event and date. |
| RegisterModels.SplitAtFirstDigit | register/models.py:67-72 | A digit-free prefix followed by an event that opens with a digit can be split back uniquely. |
| RegisterModels.RegionPrefixes | register/models.py:52-57 | The region part of a label has no digits. It is empty exactly for `Club`. |
| RegisterModels.LabelParts | register/models.py:52-57 | A brevet's name is its region part and event, a space, then the `%d-%b-%Y` date. With its two dashes dropped, that date reads back to the brevet's date. |
| RegisterModels.RidersOfOrder | register/models.py:145-147 | A brevet's rider queryset holds each of its riders as often as the store does, no other rider, and is sorted by last name. |
| RegisterModels.EventCodes | register/models.py:78-84 | Every offered event code is non-empty and opens with a digit. |
| RegisterModels.InPastWindow | register/models.py:92-104 | The results link is returned exactly when the date is at least 8 days before today. At exactly 7 days there is no link. From year 10 on, the link carries the year modulo 100 as two digits. |
| RegisterModels.InPastMonotone | register/models.py:92-104 | Once an event is in the past, it stays in the past, with the same link, on every later day. |
| RegisterModels.RegistrationClosedAtNoonBefore | register/models.py:107-116 | Registration is closed exactly when now is at or after noon of the day before the brevet. The boundary instant counts as closed. |
| RegisterModels.RegistrationClosedMonotone | register/models.py:107-116 | Once registration is closed, it stays closed at every later instant. |
| RegisterModels.RegistrationClosedByDay | register/models.py:107-116 | Two or more days before, registration is open. On the brevet's day it is closed. On the day before, the minute of the day decides. |
| RegisterModels.StartedAfterClosing | register/models.py:107-126 | A started brevet has closed registration. Started holds at every later instant. |
| RegisterModels.FullNameWords | register/models.py:159-163 | For a first name without spaces, the full name's first space-separated word is the first name, and what follows that space is the last name. |
| RegisterModels.MissingFieldsWithQuestion | register/models.py:197-215 | The form for a brevet with a question reports what the form without one reports, plus the info answer exactly when that is absent or blank. The form without a question never reports the info answer. |
| RegisterModels.InfoAnswerRule | register/models.py:197-215 | The info answer is a form field, and is required, exactly when the brevet asks an info question. |
| RegisterModels.RiderForm.constructor | register/models.py:197-215 | The form's fields are those of the form class the brevet's question selects, and it has no errors yet. |
| RegisterModels.RiderForm.CleanCaptcha | register/models.py:188-194 | The answer is returned unchanged. A wrong answer sets the captcha errors to `Wrong! See hint.`; a right one leaves the errors alone. |
| PopulaireModels.UrlParts | populaires/models.py:63-67 | The page address is `/populaires/`, then the short name, then nine date characters that read back to the date. |
| PopulaireModels.LabelParts | populaires/models.py:50-53 | A populaire's name is its short name, a space, then the `%d-%b-%Y` date. With its two dashes dropped, that date reads back to the populaire's date. |
| Ordering.SortByOrders | populaires/models.py:22-23 | Sorting by a field's order gives the same records, each as often, in that order. |
| PopulaireModels.UrlIdentifiesPopulaire | populaires/models.py:63-67 | Two populaires with the same page address have the same short name and the same date. |
| PopulaireModels.InPast | populaires/models.py:89-101 | The results link is returned exactly when the date is at least 8 days before today. The link is the register app's link for that year. |
| PopulaireModels.RegistrationClosedBoundary | populaires/models.py:16-77 | Exactly `offset` hours after the closing time, registration is still open; a minute later it is closed. Once closed, it stays closed. |
| PopulaireModels.StartedOnTheDay | populaires/models.py:80-86 | On the event's day, it has started exactly when the minute of the day is more than `offset` hours past the start time. |
| PopulaireModels.StartedMonotone | populaires/models.py:80-86 | Started is monotone in the clock. It holds on any later day when the start hour plus the offset is before midnight. |
| PopulaireModels.RiderForm.constructor | populaires/models.py:129-135 | The distance field offers exactly the given choices and has the `Please choose a distance` message. There are no errors yet. |
| PopulaireModels.RiderForm.CleanCaptcha | populaires/models.py:144-150 | The answer is returned unchanged. Any answer other than 2 sets the captcha errors to `Wrong!`; 2 leaves the errors alone. |
| RegisterViews.ListedIffNotPast | register/views.py:26-27 | The seven-day list filter keeps exactly the events that `_brevet_in_past` gives no results link for. |
| RegisterViews.Insert | register/views.py:28 | Insertion keeps the list strictly sorted. It adds exactly the new element. |
| RegisterViews.SortedSet | register/views.py:28 | `sorted(set(xs))` is strictly sorted and holds exactly the elements of `xs`. |
| RegisterViews.ListedRegionsMembers | register/views.py:26-28 | A region is collected exactly when some listed brevet is in it. |
| RegisterViews.RegionsCover | register/views.py:26-28 | The sorted region codes are exactly those of the listed brevets. |
| RegisterViews.HomeRegionsSpec | register/views.py:26-32 | The page fails exactly when a listed brevet's region is missing from the region table. |
| RegisterViews.HomeRegionsOrdered | register/views.py:26-32 | When the page does not fail, its codes are strictly ordered and each is paired with its long name from the region table. |
| RegisterViews.HomeRegionsCover | register/views.py:26-32 | When the page does not fail, it lists every listed brevet's region and no other. |
| RegisterViews.BrevetStartedLater | register/views.py:83-93 | The view's test (at least 1 + `offset` hours after the start) implies the model's. The two disagree exactly from one hour after the start until 1 + `offset` hours after it. |
| RegisterViews.OrganizersReached | register/views.py:222-261 | A reply to the rider's confirmation reaches exactly the notice's recipients. An organizer field written as addresses joined by a comma and spaces reads back as those addresses. |
| RegisterViews.MatchIds | register/views.py:204-206 | No more matches than stored riders. |
| RegisterViews.MatchIdsMembers | register/views.py:204-206 | The matched ids are exactly the ids of stored riders with the same names, address and brevet. |
| RegisterViews.RegisterDuplicate | register/views.py:204-209 | A repeated registration saves nothing and sends nothing. It redirects to the duplicate notice of a stored matching rider. |
| RegisterViews.RegisterNew | register/views.py:210-219 | A new registration appends exactly one rider, with the next id and the submitted fields. It then sends the rider's confirmation, followed by the organizers' notice, and redirects to the new id's page. |
| RegisterViews.RegisterTwice | register/views.py:204-219 | Submitting the same registration twice stores it once. The second submission finds exactly the first one's rider and changes nothing. |
| RegisterViews.RegisterKeepsStoreValid | register/views.py:198-219 | Registration keeps every id below the counter and never stores the same registration twice. On such a store the lookup never finds several riders. |
| RegisterViews.AtMostOneMatch | register/views.py:204-206 | On a store without duplicates, at most one rider matches. |
| RegisterViews.NoMatchEmpty | register/views.py:204-206 | When no stored rider matches, the match list is empty. |
| RegisterViews.Registry.constructor | register/views.py:198-219 | The store starts with no riders, the first id 1 and no messages. |
| RegisterViews.Registry.FindRegistration | register/views.py:204-206 | The scan's outcome is the lookup of the registration's fields: not found, one id, or several. |
| RegisterViews.Registry.SaveNew | register/views.py:208-217 | The new rider is appended under the next id and the counter moves on. The rider's confirmation and the organizers' notice are added to the outbox, and the redirect names the new id. |
| RegisterViews.Registry.ProcessRegistration | register/views.py:198-219 | The new riders, counter and outbox, and the redirect, are those of the registration rule. |
| RegisterViews.AddressesOf | register/views.py:189-194 | The address list is empty exactly when the brevet has no rider. It holds the address of every rider of the brevet, and each address it holds is that of a rider of the brevet. |
| RegisterViews.BrevetRiderEmailsRoundTrip | register/views.py:186-195 | The page is missing exactly when the brevet has no rider. Otherwise, read as a comma list, it gives back one address per rider of the queryset, in queryset order. The queryset holds each rider of the brevet as often as the store does, no other rider, and is sorted by last name. |
| PopulaireViews.PopulairesListOrder | populaires/views.py:25-26 | The list holds each populaire dated seven days ago or later as often as the store does, and no other. It is in date order, as the model's `Meta.ordering` sorts it. |
| PopulaireViews.PopulairesListSubset | populaires/views.py:25-26 | Every listed populaire is one of the given populaires. |
| PopulaireViews.PopulairesListMembers | populaires/views.py:25-26 | A populaire is listed exactly when it is dated seven days ago or later, that is exactly when it has no results link. |
| PopulaireModels.RidersOfOrder | populaires/models.py:108-109 | A populaire's rider queryset holds each of its riders as often as the store does, no other rider, and is sorted by last name. |
| PopulaireViews.FillerPhotoAfterRegistration | populaires/views.py:49 | A new rider of the same populaire adds one to the count; one of another populaire adds nothing. Once the photo is hidden, it stays hidden. |
| PopulaireViews.DistanceChoiceUnits | populaires/views.py:64-65 | A number after any leading whitespace, followed by a space and unit letters such as `km` or `kms`, becomes that number beside the piece without its leading whitespace. |
| PopulaireViews.DistanceChoiceNeedsDigit | populaires/views.py:64-65 | A piece without a digit gives no choice: `int()` refuses it. |
| PopulaireViews.DistanceChoicesCount | populaires/views.py:64-65 | There is one choice per comma-separated piece of the distance field. |
| PopulaireViews.DistanceChoiceKm | populaires/views.py:64-65 | `N km`, with or without a leading space, becomes `(N, "N km")`. |
| PopulaireViews.DistanceChoicesKm | populaires/views.py:64-65 | A field such as `50 km, 100 km` becomes the numbers, each beside its written form, in order. |
| PopulaireViews.ChoicesOfAll | populaires/views.py:64-65 | When every piece gives its choice, the comprehension gives them all, in order. |
| PopulaireViews.RegistrationForm | populaires/views.py:56-90 | The page is not found exactly when registration is closed. The form page appears exactly when registration is open, the distances parse, and the request is not an accepted submission; it carries the parsed choices and is bound exactly for a submission. |
| RegisterTasks.RowDictColumns | register/tasks.py:47-54 | The row has exactly four columns. The rider number reads back as the number, the names are copied, and `clubmember` is `Y` exactly for club members, else `N`. |
| RegisterTasks.SyncedShape | register/tasks.py:28-44 | The sync rewrites the first min(R, N) rows and appends max(0, N-R) rows. Rows past the last rider are unchanged, and the riders' rows are in rider-list order. |
| RegisterTasks.SyncedNumbers | register/tasks.py:34-44 | Row j's `ridernumber` field is the decimal text of j+1. It also holds the rider's names, and column 5 holds the rider's info answer. |
| RegisterTasks.SyncedIdempotent | register/tasks.py:28-44 | Syncing again with the same riders changes nothing and appends nothing. |
| RegisterTasks.SyncedInLastNameOrder | register/tasks.py:21-44 | Synced with the brevet's rider queryset, the riders' rows are sorted by their lastname column, so the sheet keeps the last-name order. |
| RegisterTasks.UpdateGoogleSpreadsheet | register/tasks.py:21-44 | A document id without a colon fails before any change. Otherwise the spreadsheet becomes the synced rows. |
| RegisterTasks.TaskEnvelopes | register/tasks.py:57-113 | The confirmation: to the rider alone, from the organizer field, sender the site, reply-to the organizers, subject with ` Brevet`. The notice: from the site, with one trimmed comma-free address per piece, and the full-name subject. A reply reaches the notice's recipients. |
| PopulaireTasks.RowDictColumns | populaires/tasks.py:44-51 | The row has exactly four columns. The rider number and the distance read back as the numbers, and the names are copied. |
| PopulaireTasks.SyncedShape | populaires/tasks.py:27-41 | The sync rewrites min(R, N) rows and appends max(0, N-R) rows. Rows past the last rider are unchanged, and no existing row's column 5 changes. |
| PopulaireTasks.SyncedNumbers | populaires/tasks.py:33-41 | Row j's `ridernumber` field is the decimal text of j+1. It also holds the rider's names and the distance. |
| PopulaireTasks.SyncedIdempotent | populaires/tasks.py:27-41 | Syncing again with the same riders changes nothing. |
| PopulaireTasks.SyncedInLastNameOrder | populaires/tasks.py:20-41 | Synced with the populaire's rider queryset, the riders' rows are sorted by their lastname column. |
| PopulaireTasks.UpdateGoogleSpreadsheet | populaires/tasks.py:20-41 | A document id without a colon fails before any change. Otherwise the spreadsheet becomes the synced rows. |
| PopulaireTasks.TaskEnvelopes | populaires/tasks.py:54-107 | The confirmation: to the rider alone, from and sender the site, reply-to the organizers, no subject suffix. The notice exists exactly when the id has a colon. It comes from the site, goes to the addresses a reply reaches, and links the spreadsheet of the id's key. |
| Sheets.RiderList.UpdateRow | register/tasks.py:37 | Only the named columns of the one row change. |
| Sheets.RiderList.InsertRow | register/tasks.py:43 | One row is appended, with an empty column 5. |
| Sheets.RiderList.UpdateInfoCell | register/tasks.py:38 | Only column 5 of spreadsheet row `r`, which is data row `r - 2`, changes. |
| RegisterAdmin.Lacking | register/admin.py:68-80 | The number of brevets lacking a rider list is at most the selection's size. |
| RegisterAdmin.LackingNone | register/admin.py:68-80 | No brevet is lacking exactly when every doc id is set. |
| RegisterAdmin.LackingStep | register/admin.py:70-80 | Counting one more brevet adds one exactly when that brevet lacks a list. |
| RegisterAdmin.NothingChangedYet | register/admin.py:70-80 | While nothing seen so far lacked a list, the selection is unchanged. |
| RegisterAdmin.WithRiderList | register/admin.py:70-80 | Only the doc id may change. |
| RegisterAdmin.Copied | register/admin.py:70-80 | Only the doc id may change. |
| RegisterAdmin.CopyTemplate | register/admin.py:68-80 | Fails, changing nothing, exactly when some brevet lacks a list and no template exists. Otherwise it counts the lacking brevets and gives each of them a copy. |
| RegisterAdmin.CreateRiderListSpreadsheet | register/admin.py:61-93 | Fails, changing nothing, exactly when a copy is needed and there is no template. Otherwise it updates every brevet as above and shows the created/already-had note for the counts. |
| RegisterAdmin.AllHaveRiderLists | register/admin.py:68-80 | After a successful run with non-empty copy ids, every brevet has a rider list. |
| RegisterAdmin.OrganizerUrlsEnvelope | register/admin.py:223-260 | The message comes from the site and goes to every stripped organizer address. Its third link is the brevet page plus `rider-emails/{uuid}/`. |
| RegisterAdmin.OrganizerUrlsSpreadsheet | register/admin.py:240-242 | The second link is the spreadsheet address. |
| RegisterAdmin.OrganizerNoticeExists | register/admin.py:223-260 | The message exists exactly when the doc id has a colon. It then links the spreadsheet of the id's key. |
| RegisterAdmin.NotifyBrevetOrganizer | register/admin.py:223-260 | One message per brevet, in order, until the first doc id without a colon. |
| RegisterAdmin.NotifyBrevetOrganizerSucceeds | register/admin.py:223-260 | All messages go out exactly when every doc id has a colon. |
| RegisterAdmin.NotifyBrevetOrganizerAction | register/admin.py:102-110 | The note appears exactly when every message went out, and counts the selection. |
| RegisterAdmin.NotifyWebmaster | register/admin.py:194-220 | Exactly one message per event, in order, each to the webmaster alone. |
| RegisterAdmin.NotifyWebmasterAction | register/admin.py:114-121 | The messages, then the note counting the selection. The same member serves the club event admin's action with the noun `event`. |
| PopulaireAdmin.Lacking | populaires/admin.py:66-76 | The number of populaires lacking a rider list is at most the selection's size. |
| PopulaireAdmin.LackingNone | populaires/admin.py:66-76 | No populaire is lacking exactly when every doc id is set. |
| PopulaireAdmin.LackingStep | populaires/admin.py:68-76 | Counting one more populaire adds one exactly when that populaire lacks a list. |
| PopulaireAdmin.NothingChangedYet | populaires/admin.py:68-76 | While nothing seen so far lacked a list, the selection is unchanged. |
| PopulaireAdmin.WithRiderList | populaires/admin.py:68-76 | Only the doc id may change. |
| PopulaireAdmin.Copied | populaires/admin.py:68-76 | Only the doc id may change. |
| PopulaireAdmin.CopyTemplate | populaires/admin.py:66-76 | Fails, changing nothing, exactly when a copy is needed and no template exists. Otherwise it counts the lacking populaires and gives each of them a copy. |
| PopulaireAdmin.CreateRiderListSpreadsheet | populaires/admin.py:59-89 | Fails, changing nothing, exactly when a copy is needed and there is no template. Otherwise it updates as above and shows the note for the counts. |
| PopulaireAdmin.AllHaveRiderLists | populaires/admin.py:66-76 | After a successful run with non-empty copy ids, every populaire has a rider list. |
| PopulaireAdmin.OrganizerUrlsEnvelope | populaires/admin.py:129-165 | The message comes from the registration address and goes to every stripped organizer address. The third link is the page plus `rider-emails/{uuid}/`. |
| PopulaireAdmin.OrganizerUrlsSpreadsheet | populaires/admin.py:145-147 | The second link is the spreadsheet address. |
| PopulaireAdmin.OrganizerNoticeExists | populaires/admin.py:129-165 | The message exists exactly when the doc id has a colon, and links the spreadsheet of the id's key. |
| PopulaireAdmin.NotifyPopulaireOrganizer | populaires/admin.py:129-165 | One message per populaire, in order, until the first doc id without a colon. |
| PopulaireAdmin.NotifyPopulaireOrganizerSucceeds | populaires/admin.py:129-165 | All messages go out exactly when every doc id has a colon. |
| PopulaireAdmin.NotifyPopulaireOrganizerAction | populaires/admin.py:94-102 | The note appears exactly when every message went out, and counts the selection. |
| PopulaireAdmin.NotifyWebmaster | populaires/admin.py:168-192 | Exactly one message per populaire, in order, each to the webmaster address alone. |
| PopulaireAdmin.NotifyWebmasterAction | populaires/admin.py:107-114 | The messages, then the note counting the selection. |
| AdminMessages.Capitalized | register/admin.py:88-92 | The noun with its first letter upper-cased, the rest unchanged. |
| AdminMessages.CreatedMessage | register/admin.py:81-92 | The note opens with the created sentence. The already-had sentence follows exactly when some brevet already had a list. |
| AdminMessages.CreatedMessageTellsCounts | register/admin.py:81-92 | Equal notes come from equal created and selected counts. |
| AdminMessages.CreatedHeadLetters | register/admin.py:81-86 | `No` opens only the zero note. The singular and plural openings differ at the eleventh letter, and the plural's count follows the opening. |
| AdminMessages.CreatedHeadTellsCount | register/admin.py:81-86 | The first sentence gives its count away. |
| AdminMessages.AlreadyHadLetters | register/admin.py:87-92 | The second sentence is empty exactly for a zero difference. The singular opens with the capitalised noun, the plural with the count. |
| AdminMessages.AlreadyHadTailTellsCount | register/admin.py:87-92 | The second sentence gives its count away. |
| AdminMessages.NotifyOrganizerLetters | register/admin.py:104-110 | `Email ` against `Emails`: the singular form appears exactly for one brevet, and the count follows the plural opening. |
| AdminMessages.NotifyOrganizerTellsCount | register/admin.py:104-110 | Equal organizer notes come from equal counts. |
| AdminMessages.NotifyWebmasterLetters | register/admin.py:116-121 | The singular form appears exactly for one event, and the count follows the plural opening. |
| AdminMessages.NotifyWebmasterTellsCount | register/admin.py:116-121 | Equal webmaster notes come from equal counts. |
| Mail.SendEach | register/admin.py:235-260 | One message per item, in order. On failure, the messages before the failing item are already sent. |
| Mail.AddressListShape | register/tasks.py:111 | One address per comma-separated piece, none holding a comma or whitespace at its ends. |
| Mail.StripWithin | register/tasks.py:111 | Stripping leaves no whitespace at the ends and adds no character. |
| Mail.AddressListJoin | register/tasks.py:111 | Addresses joined by a comma and spaces read back as the same addresses. |
| Mail.CheckEach | register/admin.py:189-190 | The loop succeeds exactly when every address validates. |
| Mail.CleanEmailAddressList | register/admin.py:186-191 | Returns the input unchanged exactly when every stripped comma piece validates, and fails otherwise. The same code is at populaires/admin.py:121-126. |
| Mail.DocKeyExists | populaires/tasks.py:90-92 | A doc id has a key exactly when it holds a colon. |
| Mail.DocKeyOf | populaires/tasks.py:90-92 | The key of `kind:key` is `key`. |
| Mail.RiderListUrlExists | populaires/tasks.py:90-92 | A doc id has a spreadsheet address exactly when it holds a colon. |
| Mail.RiderListUrlOf | populaires/tasks.py:90-92 | The address of `kind:key` is the spreadsheet page of `key`. |
| Helpers.Email2WordsHidesMarks | helpers.py:10-15 | The obfuscated address holds no `@` and no `.`. The same code is at pasture/helpers.py:11-16 and register/helpers.py:8-13. |
| Helpers.Email2WordsIdentity | pasture/helpers.py:11-16 | An address with neither `@` nor `.` is shown as it is. |
| Helpers.Email2WordsPiecewise | helpers.py:10-15 | The obfuscator distributes over concatenation and keeps every other character, so the rest keeps its order. |
| Helpers.Email2WordsLength | register/helpers.py:8-13 | The length grows by 3 per `@` and 4 per `.`. |
| Helpers.Email2WordsEitherOrder | helpers.py:10-15 | The two replacements in the other order give the same text. |
| Helpers.Email2WordsExample | register/helpers.py:8-13 | `user@host.domain.top` becomes `user at host dot domain dot top`, as in `djl@example.bc.ca`. |
| Helpers.FirstTitled | helpers.py:26-32 | No document when none has the title; otherwise a listed document with that title. |
| Helpers.GetRiderListTemplate | pasture/helpers.py:27-33 | The loop returns the first document with the title, or fails exactly when none has it. |
| Migration.RewriteEach | register/migrations/0006_move_data_to_rider_info_answer.py:12-14 | Every row of the table is rewritten from its own old value. |
| RegisterMigrations.EventFromDistance | register/migrations/0010_move_data_to_revet_event.py:12-14 | Only the event field changes. |
| RegisterMigrations.EventReadsBack | register/migrations/0010_move_data_to_revet_event.py:13 | The written event reads back as the distance. |
| RegisterMigrations.DistanceFromEvent | register/migrations/0010_move_data_to_revet_event.py:24-29 | Only the distance field changes. |
| RegisterMigrations.EventsFromDistances | register/migrations/0010_move_data_to_revet_event.py:12-14 | The table keeps its row count. |
| RegisterMigrations.DistancesFromEvents | register/migrations/0010_move_data_to_revet_event.py:24-29 | The table keeps its row count. |
| RegisterMigrations.ForwardsEvent | register/migrations/0010_move_data_to_revet_event.py:9-14 | The table becomes the forwards rewrite of every row. |
| RegisterMigrations.BackwardsEvent | register/migrations/0010_move_data_to_revet_event.py:17-30 | The table becomes the backwards rewrite of every row. There is no failure outcome, because the RuntimeError is built but never raised. |
| RegisterMigrations.EventRoundTrip | register/migrations/0010_move_data_to_revet_event.py:12-29 | Backwards after forwards changes nothing more and restores every distance. |
| RegisterMigrations.EventForwardsIdempotent | register/migrations/0010_move_data_to_revet_event.py:12-14 | Forwards twice is forwards once. |
| RegisterMigrations.AnswersFromQualInfo | register/migrations/0006_move_data_to_rider_info_answer.py:12-14 | Only the info answer changes, and it equals the qualifying info. |
| RegisterMigrations.QualInfoFromAnswers | register/migrations/0006_move_data_to_rider_info_answer.py:20-22 | Only the qualifying info changes, and it equals the answer. |
| RegisterMigrations.ForwardsInfoAnswer | register/migrations/0006_move_data_to_rider_info_answer.py:9-14 | The table becomes the forwards rewrite. |
| RegisterMigrations.BackwardsInfoAnswer | register/migrations/0006_move_data_to_rider_info_answer.py:17-22 | The table becomes the backwards rewrite. |
| RegisterMigrations.InfoAnswerRoundTrip | register/migrations/0006_move_data_to_rider_info_answer.py:12-22 | Backwards after forwards changes nothing more and leaves the qualifying info as it was. |
| RegisterMigrations.InfoAnswerForwardsIdempotent | register/migrations/0006_move_data_to_rider_info_answer.py:12-14 | Forwards twice is forwards once. |
| RegisterMigrations.LowercasedRiders | register/migrations/0003_last_name_to_lowercase.py:10-12 | Only each rider's sort key changes. |
| RegisterMigrations.LowercasedParticipants | register/migrations/0003_last_name_to_lowercase.py:13-15 | Only each participant's sort key changes. |
| RegisterMigrations.ForwardsLowercase | register/migrations/0003_last_name_to_lowercase.py:9-15 | Both tables become their lower-cased rewrites, riders first. |
| RegisterMigrations.BackwardsLowercase | register/migrations/0003_last_name_to_lowercase.py:18-19 | Both tables are unchanged. |
| RegisterMigrations.LowercaseRidersKeys | register/migrations/0003_last_name_to_lowercase.py:10-12 | Each sort key is the lower-cased last name, with no capital left. Forwards is idempotent. |
| RegisterMigrations.LowercaseParticipantsKeys | register/migrations/0003_last_name_to_lowercase.py:13-15 | Each sort key is the lower-cased last name. Forwards is idempotent. |
| PopulaireMigrations.LowercasedRiders | populaires/migrations/0003_last_name_to_lowercase.py:10-12 | Only each rider's sort key changes, and the row count stays. |
| PopulaireMigrations.ForwardsLowercase | populaires/migrations/0003_last_name_to_lowercase.py:9-12 | The table becomes its lower-cased rewrite. |
| PopulaireMigrations.BackwardsLowercase | populaires/migrations/0003_last_name_to_lowercase.py:15-16 | The table is unchanged. |
| PopulaireMigrations.LowercaseRidersKeys | populaires/migrations/0003_last_name_to_lowercase.py:10-12 | Each sort key is the lower-cased last name, with no capital left. Forwards is idempotent. |
| Calendar.OrdinalOrder | register/models.py:103 | Python's field-by-field date comparison agrees with the day ordinal. |
| Calendar.PrevDayOrdinal | register/models.py:113 | The previous calendar day is the day whose ordinal is one less. |
| Calendar.ParseFormatDate | register/views.py:115-117 | The `%d%b%Y` address layout reads back with `strptime` to the date it was written from. The parser covers only the site's own layout: a two-digit day and the exact-case month abbreviation. |
| Calendar.YearSuffixDigits | register/models.py:101-104 | From year 10 on, `str(year)[-2:]` is the year modulo 100 as two digits. |
| Calendar.InstantDayBounds | populaires/models.py:83-85 | Every instant of a day comes before every instant of a later day. |
| Text.SplitPieces | register/admin.py:189 | There is one piece more than separators, and no piece holds the separator. |
| Text.JoinSplit | register/views.py:194 | Joining the pieces of a split with the separator gives back the string. |
| Text.SplitJoin | register/views.py:194 | Splitting a join gives back the pieces when none holds the separator. |
| Text.ParseIntToString | register/migrations/0010_move_data_to_revet_event.py:13-26 | `int(str(i)) == i` for every integer. |
| Text.ToLowerIdempotent | populaires/migrations/0003_last_name_to_lowercase.py:11 | Lower-casing twice is lower-casing once, and leaves no capital letter. |
| Text.StrLessTotal | register/views.py:28 | Python's string order is strict and total. |

## Left out

- E-mail bodies, templates and SMTP sending are not modelled. Only the envelope is: subject, From, To, Sender, Reply-To and the links given to the body.
- Celery's task queueing is left out, as is the ORM's query machinery. A queryset is the stored records, filtered, then sorted by the model's `Meta.ordering` (Ordering.SortBy). `Model.objects.get` is a lookup giving not found, one record, or several.
- Ordering.SortBy keeps records that tie on the ordering field in store order; the database leaves their order unspecified. Last names compare code point by code point, not by the database's collation.
- The date ordering of brevets and club events (register/models.py:34-36) is not applied: no modelled result depends on it. The home page sorts its region codes itself, and the admin actions take their selection in the order given.
- RegisterViews.BrevetRiderEmails, RegisterViews.Register and the sync tasks select a brevet's riders by the brevet's key. The source filters on the brevet's region, event and date (register/views.py:189-191, register/tasks.py:30-32), which would also gather the riders of another brevet with the same three fields; the populaire queries likewise filter on short name and date. The page address's date segment is not parsed, so the ValueError `strptime` raises on a malformed one is not modelled.
- The Google client is left out:
  - `google_docs_login` is left out;
  - `share_rider_list_publicly` is left out;
  - the template copy is a function from the template and a title to a resource id;
  - the list feed is the `Sheets.RiderList` object.
- The register app's `create_rider_list_spreadsheet` action also calls `_update_rider_list_info_question` (register/admin.py:97-100), which writes the brevet's question into the new spreadsheet's header cell. That cell write is not modelled. Neither is the IndexError it raises when the copy's resource id has no colon.
- Django's `validate_email` is a parameter, a predicate on addresses, and `message_user` is represented by the returned note.
- `reverse()`, `uuid5` (register/models.py:60-64, populaires/models.py:56-60) and `request.get_host()` are parameters, so the routing tables are not modelled.
- The site settings are parameters:
  - the captcha answer;
  - REGISTRATION_EMAIL_FROM;
  - WEBMASTER_EMAIL;
  - ADMINS;
  - the `from_randopony` address record.
- The register views `region_brevets`, `brevet` and `registration_form` are page rendering around the modelled rules, and are not modelled themselves. The modelled rules are the time windows, the label, `email2words` and the form rules. `registration_form` at register/views.py:156-159 refers to `_registration_closed` and `RiderFormWithoutQualification`, names the module does not define. The model uses the names register/models.py defines: `Brevet.registration_closed`, and the info-answer rule of `RiderForm` versus `RiderFormWithoutInfoQuestion`.
- register/views.py:189 and register/views.py:205 query `model.Rider`, which register/models.py does not define; its rider model is `BrevetRider` (register/models.py:166). As written, `brevet_rider_emails` and `_process_registration` raise AttributeError on every call. RegisterViews.BrevetRiderEmails and RegisterViews.Register query the `BrevetRider` records instead.
- RegisterViews.Register matches on first name, last name, address and brevet. register/views.py:206 matches a `name` field that the rider model no longer has, so the intended match on the name fields is modelled instead. For the same reason the notice's subject uses the full name where the source has `rider.name`.
- PopulaireViews.RegistrationForm models an accepted submission as a server error. At populaires/views.py:76-77 that branch is `pass`, which leaves `form` unbound when the page is rendered. The rider is never saved there.
- Times have minute precision: seconds and microseconds of `datetime.now()` are not modelled. Dates are restricted to years 1–9999, and the OverflowError of date arithmetic at the ends of that range is not modelled.
- RegisterModels.Label, RegisterModels.AbsoluteUrl and Calendar.FormatDate return a string for every year. Python 2's `strftime` raises ValueError for years before 1900; that error is not modelled.
- Calendar.ParseCompactDate reads only the site's own `%d%b%Y` layout: a two-digit day and a month abbreviation in its exact case. `strptime` also accepts a one-digit day and any case, as in `1may2010`. The parser is only applied to addresses the site writes itself.
- Text.ParseInt models Python 2 `int()` on ASCII text: surrounding whitespace, an optional sign, then digits. `int()` also accepts whitespace between the sign and the digits (`int('- 5')`), and non-ASCII digits in unicode input; neither is modelled.
- Sheets.RiderList.UpdateRow keeps column 5 of the row as it was. register/admin.py:100 writes the info question into header cell (1, 5), so on a brevet sheet with a question column 5 is a headed list-feed column. Whether the Google client's `UpdateRow` clears it is not modelled. The register sync rewrites that cell after each row anyway; PopulaireTasks.SyncedShape's statement that no existing row's column 5 changes rests on this assumption.
- Python's `strip()`, `isspace()` and `lower()` are modelled on ASCII characters only.
- The migration rows carry only the fields the migrations touch or keep. Date and time fields are left out, since no data migration reads or writes them.
- Mail.AddressList does not reject empty pieces, just as the source does not. An organizer field ending in a comma gives an empty recipient.
- RegisterTasks.EmailToRider uses `organizer_email` as From, as register/tasks.py:81 does. The test of `email_to_rider` in register/tests/test_tasks.py expects the site's address there; the code is followed.
- The `_get_uuid` properties and the `__unicode__` of riders, which is their full name, have no further logic to state.
