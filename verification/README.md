# Ticket app: a Dafny model of its store, validators, sessions and router

The ticket app is a small demo. A PHP front controller (`Application::run`) maps the request path to one of four Twig pages, or to a 404 page. Browser scripts then keep a list of tickets in local storage and simulate a login session. This project models the logic parts as pure Dafny functions and proves their properties:

- **Ticket store** (`public/js/tickets.js`): the first-run seed, `loadTickets`, `validateTicket`, `calculateTicketSummary`, the status filter and id sort of the ticket table, and what a save or a delete does to the stored collection. Storage is a slot `Option<seq<Ticket>>`, where `None` means the key is absent. `Date.now()`, the ISO time stamp and the `confirm()` answer are parameters.
- **Second validator and credential check** (`public/js/app.js`): `TicketService.validateTicket` returns an ordered list of messages. `AuthService.login` and `logout` are transitions on the session slot, and `isAuthenticated` is a predicate on it.
- **Session** (`public/js/auth.js`): the session slot, `simulateLogin`, the login form's submit handler, `handleLogout` and the two redirect guards. A redirect is a returned `Option<url>`.
- **Router** (`src/Application.php`): `trim($uri, '/')`, the PHP `empty()` fallback to `landing`, the route switch and the template path. The path string is an input.

Files and modules:

| file | module | models |
|---|---|---|
| `options.dfy` | `Options` | `Option` |
| `strings.dfy` | `Strings` | trimming a character class from both ends, used for JavaScript `trim()` and PHP `trim($s, '/')` |
| `ticket_model.dfy` | `TicketModel` | `Ticket`, `Status`, `Fields`, the two field checks, ids, and order-preserving `Select` (`Array.prototype.filter`) |
| `ticket_validation.dfy` | `TicketValidation` | `validateTicket` of tickets.js |
| `ticket_summary.dfy` | `TicketSummary` | `calculateTicketSummary` |
| `ticket_listing.dfy` | `TicketListing` | the filter and the stable id sort of `renderTicketTable` |
| `ticket_store.dfy` | `TicketStore`, `TicketScenarios` | save, delete, seed, load, the store invariant, worked examples on the seed |
| `app_services.dfy` | `AppServices` | `TicketService` and `AuthService` of app.js |
| `session.dfy` | `Session` | auth.js |
| `router.dfy` | `Router` | `Application::run` |

Several behaviours of the code are modelled as they are, not as their comments or an idealised design describe them:

- A save whose form id matches no ticket changes nothing.
- A new ticket's id (`Date.now()`) is not checked against existing ids. Uniqueness is proved only under the precondition that the clock value is unused.
- A ticket whose status is the literal `total` increments `summary.total`. This happens because `hasOwnProperty` also matches that key.
- The seed runs only when `getItem` returns a falsy value. Of the values the model represents, that is only the absent key. A stored empty array is loaded as it is and is not reseeded.
- `loadTickets` calls `JSON.parse` without a guard, so malformed storage throws. It does not read as an empty collection. The model does not represent unparseable storage at all.
- An edit spreads the form's fields over the stored ticket. When the form has no priority element, `priority: undefined` is spread over the ticket and the key is dropped on storage. `Ticket.priority` is therefore an `Option`.
- auth.js and app.js use the same session key but different value formats. auth.js writes the text `active`. `AuthService.login` writes a JSON record. Neither script accepts the other's session (`AppServices.SessionsDisagree`).

Representation choices:

- Ticket ids are integers. The form's id field is an `Option<int>`, where `None` is the empty field. This replaces JavaScript's loose `==` between the string and the number.
- A session value is `Text(s)` for a plain string or `UserRecord(username)` for the JSON record that app.js writes.
- The response code is 200 unless the 404 branch sets it.

## Model

| member | source | states |
|---|---|---|
| `Strings.Strip` | src/Application.php:32 | the result is the input with a prefix and a suffix of stripped characters cut off, and it neither starts nor ends with one |
| `Strings.StripEmptyIff` | src/Application.php:32-33 | trimming yields the empty string exactly when every character is a stripped one |
| `Strings.StripIdempotent` | src/Application.php:32 | trimming twice is trimming once |
| `Strings.JsTrimEmptyIffBlank` | public/js/tickets.js:37 | `title.trim() === ''` holds exactly when every character of the title is JavaScript white space |
| `TicketModel.ParseStatus` | public/js/tickets.js:8 | a string parses to a status exactly when it is one of `open`, `in_progress`, `closed`, and naming the parsed status gives the string back |
| `TicketModel.TitleMissingIff` | public/js/tickets.js:37 | the title check fails exactly for a missing title or one made only of white space |
| `TicketModel.StatusUnknownIff` | public/js/tickets.js:43 | the status check passes exactly for the names of the three statuses |
| `TicketModel.Select` | public/js/tickets.js:104 | the kept tickets are exactly the input tickets meeting the criterion, and there are no more of them than in the input |
| `TicketModel.SelectAppend` | public/js/tickets.js:104 | filtering distributes over concatenation, so it keeps the original relative order |
| `TicketModel.SelectUniqueId` | public/js/tickets.js:232 | with unique ids, exactly one ticket has a present id and all but one ticket lack it |
| `TicketValidation.Validate` | public/js/tickets.js:31-49 | the title error is set exactly when the title is missing or blank, and the status error exactly when the status is missing or not one of the three; the two are set independently, and `isValid` holds exactly when both are empty |
| `TicketSummary.Bump` | public/js/tickets.js:53-55 | one ticket's step: the bucket of a valid status grows by one, `total` grows by one for the status `total`, and the summary is unchanged exactly when the status is none of the object's four own keys |
| `TicketSummary.Tally` | public/js/tickets.js:53-57 | after the loop each bucket has grown by the number of tickets with that status, and `total` by the number whose status is the literal `total` |
| `TicketSummary.Summarize` | public/js/tickets.js:51-59 | each bucket counts exactly the tickets with its status, and `total` is the number of tickets plus those whose status is `total` |
| `TicketSummary.StatusPartition` | public/js/tickets.js:51-59 | the three known statuses and the unknown ones together account for every ticket once |
| `TicketSummary.SummaryBounds` | public/js/tickets.js:51-59 | open + in progress + closed never exceeds `total`, and it equals `total` exactly when every stored status is one of the three |
| `TicketSummary.TotalIsLength` | public/js/tickets.js:52-56 | `total` is at least the number of tickets, and equal to it exactly when no status is the literal `total` |
| `TicketListing.FilterView` | public/js/tickets.js:103-105 | filter `all` returns the tickets unchanged; any other filter keeps exactly the tickets whose status equals it |
| `TicketListing.FilterKeepsOrder` | public/js/tickets.js:104 | filtering a concatenation filters each part, so the relative order is kept |
| `TicketListing.TabCountsMatchSummary` | public/js/tickets.js:163-167 | for the collection the labels are computed from, each status tab's label count equals the number of rows that tab lists; the `all` tab's count exceeds its rows by the tickets whose status is `total` |
| `TicketListing.Insert` | public/js/tickets.js:108 | inserting into an id-ascending list gives an id-ascending list holding one more ticket |
| `TicketListing.InsertSelect` | public/js/tickets.js:108 | an inserted ticket lands ahead of every ticket already there with the same id |
| `TicketListing.SortById` | public/js/tickets.js:108 | the sort yields a permutation of its input that ascends by id, and tickets sharing an id keep their relative order |
| `TicketListing.ListView` | public/js/tickets.js:102-108 | the table rows ascend by id, are a permutation of the filtered tickets, and are exactly the tickets the filter admits |
| `TicketStore.FieldsOf` | public/js/tickets.js:177-184 | the validated bundle carries the form's title, status, description and priority, and a missing or empty assignee becomes `Unassigned` |
| `TicketStore.FindIndex` | public/js/tickets.js:199 | `findIndex` finds an index exactly when the id is present, and that index is the first holding the id |
| `TicketStore.Overwrite` | public/js/tickets.js:201 | the spread keeps the ticket's `id` and `created` and takes every other field from the form |
| `TicketStore.NewTicket` | public/js/tickets.js:205-209 | a new ticket has the clock value as id, the time stamp as `created`, and the form's fields |
| `TicketStore.Save` | public/js/tickets.js:184-211 | an invalid form changes nothing; an edit of a present id rewrites only the first ticket with that id, in place, keeping length, position, `id` and `created`; an edit of an absent id changes nothing; a create appends exactly one ticket with the given id and time stamp and leaves the earlier ones untouched |
| `TicketStore.Delete` | public/js/tickets.js:229-233 | without confirmation nothing changes; with it, the remaining tickets are exactly those whose id differs from the target, and as many are removed as carried the id |
| `TicketStore.IdCriteriaSplit` | public/js/tickets.js:232 | every ticket either has the target id or does not |
| `TicketStore.DeleteKeepsOrder` | public/js/tickets.js:232 | deletion keeps the relative order of the remaining tickets |
| `TicketStore.DeleteRemovesOne` | public/js/tickets.js:232 | with unique ids, deleting a present id removes exactly one ticket and no ticket with that id remains |
| `TicketStore.SaveKeepsConsistent` | public/js/tickets.js:191-211 | a save keeps every ticket well formed and ids unique, given that a created ticket's clock value is not already an id |
| `TicketStore.AppendKeepsConsistent` | public/js/tickets.js:205-210 | appending a validated ticket with an unused id keeps the store invariant |
| `TicketStore.UpdateKeepsConsistent` | public/js/tickets.js:199-202 | rewriting one ticket from validated fields, keeping its id, keeps the store invariant |
| `TicketStore.CarriesValid` | public/js/tickets.js:191-193 | a ticket carrying fields that passed validation has a non-blank title and a known status |
| `TicketStore.SelectKeepsUnique` | public/js/tickets.js:232 | filtering cannot create duplicate ids |
| `TicketStore.DeleteKeepsConsistent` | public/js/tickets.js:229-233 | a delete keeps the store invariant |
| `TicketStore.SeedTickets` | public/js/tickets.js:12-17 | four tickets with ids 1 to 4, all stamped with the given creation time |
| `TicketStore.Boot` | public/js/tickets.js:11-18 | after the seed block the key is always present; a present key is kept as it is, and an absent one gets the seed |
| `TicketStore.LoadTickets` | public/js/tickets.js:22-25 | a present key loads its stored array and an absent key loads the empty collection |
| `TicketStore.FirstLoadIsSeed` | public/js/tickets.js:11-25 | on empty storage the first load returns four tickets with ids 1 to 4 and statuses open, open, in_progress, closed |
| `TicketStore.SeedIsConsistent` | public/js/tickets.js:12-17 | the seeded tickets have unique ids, non-blank titles and known statuses |
| `TicketStore.SeedSummary` | public/js/tickets.js:12-17 | the dashboard shows the seed as 4 total, 2 open, 1 in progress and 1 closed |
| `TicketStore.CountOfFour` | public/js/tickets.js:53-57 | counting over four tickets adds up one ticket at a time |
| `TicketStore.LoadKeepsStored` | public/js/tickets.js:22-25 | a stored collection, even an empty one, loads as it is and is not reseeded |
| `TicketStore.BootIdempotent` | public/js/tickets.js:11-18 | the seed block runs at most once |
| `TicketStore.RunKeepsConsistent` | public/js/tickets.js:172-243 | any series of saves and deletes starting from a consistent collection, in which every create gets an unused clock value, keeps ids unique and every ticket well formed |
| `TicketScenarios.CreateOnSeed` | public/js/tickets.js:205-210 | creating "Fix bug" on the seed with a clock value outside 1 to 4 gives five tickets, the new one last with that id, and keeps the invariant |
| `TicketScenarios.EmptyTitleOnSeed` | public/js/tickets.js:37-40 | an empty title reports only the title error and leaves the seed unchanged |
| `TicketScenarios.DeleteOnSeed` | public/js/tickets.js:232 | deleting ticket 2 from the seed leaves three tickets, none with id 2 |
| `TicketScenarios.ClosedTabOnSeed` | public/js/tickets.js:103-105 | the `closed` filter on the seed shows exactly ticket 4 |
| `AppServices.ValidateTicket` | public/js/app.js:62-82 | the title message is present exactly when the title is missing or blank, and the status message exactly when the status is missing or not allowed; `isValid` holds exactly when the list is empty; the list has at most two entries, title first |
| `AppServices.ValidatorsAgree` | public/js/app.js:62-82 | on every input the list validator's verdict and messages match the tickets.js validator's `isValid` and errors |
| `AppServices.Login` | public/js/app.js:14-27 | login succeeds exactly for testuser/password123 and admin/adminpass; success stores that user's record, which counts as authenticated; failure leaves the session unchanged |
| `AppServices.IsAuthenticated` | public/js/app.js:36-44 | defined as: the key holds the record that `AuthService.login` writes; any other text, `active` included, fails (see "## Left out") |
| `AppServices.Logout` | public/js/app.js:29-34 | after logout the session key is absent, the service reports no login, and the page goes to `/login` |
| `AppServices.SessionsDisagree` | public/js/app.js:36-44 | no session satisfies both scripts' login checks, so after a successful `AuthService.login` the auth.js dashboard guard still redirects |
| `Session.IsAuthenticated` | public/js/auth.js:16-18 | defined as: the key holds exactly the text `active` |
| `Session.SimulateLogin` | public/js/auth.js:44-51 | login succeeds exactly for the test e-mail with the test password; success makes the state authenticated and failure leaves it unchanged |
| `Session.SubmitLogin` | public/js/auth.js:80-87 | the visitor ends logged in exactly when the credentials are right, and is then sent to the dashboard; a failed submit removes the session and stays on the page |
| `Session.HandleLogout` | public/js/auth.js:56-60 | logout removes the session, so the state is not authenticated, and goes to `/` |
| `Session.RequireAuthentication` | public/js/auth.js:35-39 | the guard redirects, to its target, exactly when the state is not authenticated |
| `Session.RequireUnauthenticated` | public/js/auth.js:24-28 | the guard redirects, to its target, exactly when the state is authenticated |
| `Session.OpenLoginPage` | public/js/auth.js:73 | opening the login page while logged in goes to `/dashboard`, otherwise it stays |
| `Session.GuardsExclusive` | public/js/auth.js:24-39 | in every state exactly one of the two guards redirects |
| `Session.LoginLogoutCycle` | public/js/auth.js:44-60 | after a successful submit the dashboard guard lets the visitor through and the login page bounces to the dashboard; after logout the dashboard guard sends the visitor to `/login` |
| `Session.FailedSubmitLogsOut` | public/js/auth.js:80-86 | a failed submit leaves the visitor unauthenticated, whatever the session was |
| `Router.NormalizeRoute` | src/Application.php:32-35 | the route is the path with leading and trailing slashes cut off; when that is empty or `"0"` it is `landing`; the route is never empty or `"0"` |
| `Router.Resolve` | src/Application.php:38-77 | the template path is `pages/<template>.html.twig`; the user is always `Guest`; the template and both titles are those the switch chooses for the normalised route; the template is one of landing, login, dashboard, tickets, 404; the code is 404 exactly for the 404 template and for routes outside the table, and 200 otherwise |
| `Router.Choose` | src/Application.php:41-74 | a route the switch names renders the template of its own name, except `index.php`, which renders the landing page with the same titles as `landing`; any other route gets the 404 page; the template is always one of landing, login, dashboard, tickets and 404, and each template comes with its fixed titles: landing `Welcome` / `Project Management for All Frameworks`, login `User Authentication` / `Sign In to Your Account`, dashboard `Dashboard` / `Your Open Tickets`, tickets `Ticket Management List` / `Manage All Tickets`, 404 `Page Not Found` / `404 Error` |
| `Router.SlashesDoNotMatter` | src/Application.php:32 | a path and the same path wrapped in slashes resolve to the same page |
| `Router.StripSurrounded` | src/Application.php:32 | wrapping a path in slashes does not change its trim |
| `Router.LeadingThenSlash` | src/Application.php:32 | removing leading slashes and then appending one slash gives the same result as appending the slash first, unless only slashes remain |
| `Router.RootIsLanding` | src/Application.php:33-35 | `/` renders the landing page with the default code |
| `Router.ZeroIsLanding` | src/Application.php:33-35 | `/0` renders the landing page, because PHP's `empty()` is true for `"0"` |
| `Router.IndexPhpIsLanding` | src/Application.php:42-47 | `/index.php` renders the landing template with the title `Welcome` and code 200 |
| `Router.NestedPathIsNotFound` | src/Application.php:69-73 | `/tickets/new` is not a known route and gets code 404 |

## Left out

- All DOM work is left out because it is presentation, not store logic. This includes the HTML built by `renderDashboardSummary` and `renderTicketTable`, the display defaults `Medium` and `Unassigned` at public/js/tickets.js:122-123, form reads and resets, showing the error elements, filling the edit form at public/js/tickets.js:288-301, and event listeners.
- `localStorage` and `JSON.parse`/`JSON.stringify` are left out; the model works on the decoded values. Storage is abstracted to one slot per key. Malformed JSON, which makes `loadTickets` and `AuthService.getCurrentUser` throw, is not represented.
- `Date.now()`, `new Date().toISOString()` and `confirm()` are parameters because they are clock and dialog input. The `mock_token_…` string of the app.js session record is omitted because nothing reads it.
- `AuthService.getCurrentUser` is left out. It only reads the username back.
- `window.location` assignments and `console` logging are left out as browser side effects. Redirects are returned as URLs.
- Twig setup and `render`, `echo` and `error_log` in src/Application.php are left out. So are `parse_url`, `$_SERVER` and `http_response_code`. The model takes the path string as given and returns the code as a field.
- index.php is not part of this model. It is a bootstrap and a catch-all handler that answers 500.
- cache/50/506ea288056d366f3789d5ab7c4796a6.php is not part of this model. It is compiled template markup.
- The model does not cover JavaScript's loose `==` between the form's string id and the numeric id, or non-string field values. Ids are integers and fields are strings. A non-numeric id string in the form corresponds to an id that matches no ticket.
- TicketStore.SeedTickets: all four seed tickets get one `created` stamp. public/js/tickets.js:13-16 calls `new Date().toISOString()` four times, so the stamps can differ by a clock tick. Nothing in the model reads `created`.
- TicketStore.Boot: a stored empty string is not represented. public/js/tickets.js:11 reseeds it because `!""` is true, and public/js/tickets.js:24 would load it as the empty collection. The storage slot holds only an absent key or a decoded array.
- AppServices.IsAuthenticated: session text other than auth.js's `active` and the record that `AuthService.login` writes is not represented. All such text is treated as unauthenticated. In the source, any stored JSON object text with `isAuthenticated: true` passes public/js/app.js:36-44, for example `{"isAuthenticated":true}`.
- AppServices.Login: only string passwords are modelled. In the source, `USER_CREDENTIALS[username]` is `undefined` for an unknown username, so `login(u, undefined)` succeeds for any such `u` (public/js/app.js:15).
- Characters are Unicode scalar values, not UTF-16 code units. JavaScript white space is the ECMAScript WhiteSpace and LineTerminator set.
