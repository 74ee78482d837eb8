# Session and authorization pipeline of an Angular proof of concept, in Dafny

This project models the client-side session pipeline of an Angular
application and proves properties of the model. It covers:

- The authentication service. It holds the current user and a loading flag. It
  checks credentials against a fixed in-memory registry. It persists the user
  under the storage key `angular_poc_user` and restores it at startup.
- The two HTTP interceptors:
  - the outbound one attaches a bearer token when someone is logged in;
  - the inbound one classifies a failed response by status and re-throws it
    normalized. On 401 it logs out; on 403 it navigates to `/unauthorized`.
- The route table: redirects, and the ordered guard list on each page.
- Four smaller pieces of logic:
  - the theme selector;
  - the global loading counter;
  - the users page's search filter, selection and form state;
  - the user card's initials, website link and delete confirmation.
- The truncate pipe's contract, as its tests state it.

Every service is an immutable state plus pure transition functions. Side effects
are returned as data rather than performed:

- router navigations and logout requests are `Effects.Effect` values;
- storage writes change the storage slot held in the state;
- the user card's emitted ids are returned as lists.

This makes "exactly once" and "nothing else changes" provable. The interceptor's
logout request is carried out in `SessionPipeline.ApplyEffects`. That function
runs `AuthService.Logout`, so the stated consequences of a 401 also cover the
session itself.

Modules:

- `Wrappers`, `Effects`, `Text` and `Seqs` are shared helpers. They cover:
  - option values;
  - effects;
  - ASCII case mapping, `startsWith`, `includes`, `split`/`join` and decimal numerals;
  - order-preserving filtering.
- `AuthService`, `AuthInterceptor`, `ErrorInterceptor` and `SessionPipeline`
  make up the session pipeline.
- `AppRoutes`, `ThemeService`, `LoadingService`, `UserModel`, `UsersPage`,
  `UserCard` and `Truncate` model the remaining source files.

Three behaviours of the code worth stating up front:

- The login messages are the code's Portuguese strings, "Login realizado com
  sucesso!" and "Email ou senha inválidos!".
- Restore adopts any parsed stored value as the current user without checking
  its shape.
- Restore removes a malformed stored value, so it writes to storage as well as
  reading it.

## Model

| member | source | states |
|---|---|---|
| AuthService.HasRole | src/app/core/services/auth.service.ts:73-81 | false with no user; true for every role when the user is admin; otherwise true exactly when the role string equals the user's own role |
| AuthService.AdminIffHasAdminRole | src/app/core/services/auth.service.ts:73-81 | `isAdmin` agrees with `hasRole('admin')` in every state |
| AuthService.HasUserRole | src/app/core/services/auth.service.ts:73-81 | `hasRole('user')` holds for admin and user sessions and for nobody else |
| AuthService.LoginAuthenticates | src/app/core/services/auth.service.ts:30-63 | after login, `isAuthenticated` holds exactly when the credentials were valid or a user was already signed in; `isAdmin` holds for the registry user's role on success and is unchanged on failure |
| AuthService.LogoutDeauthenticates | src/app/core/services/auth.service.ts:66-70 | after logout, neither `isAuthenticated` nor `isAdmin` holds |
| AuthService.RestoreAuthenticates | src/app/core/services/auth.service.ts:84-95 | at startup, `isAuthenticated` holds exactly when a serialized user is stored, and `isAdmin` exactly when that user is an admin |
| AuthService.RegistryKeyedByEmail | src/app/core/services/auth.service.ts:37-50 | every registry entry is filed under its own user's email |
| AuthService.SaveUserToStorage | src/app/core/services/auth.service.ts:97-103 | a working write stores exactly that user; a throwing write is swallowed and storage keeps its previous value |
| AuthService.Restore | src/app/core/services/auth.service.ts:84-95 | startup restore yields a user exactly when a serialized user is stored, and then that user; a malformed value is removed and leaves no user; it never fails and never raises loading |
| AuthService.LoginStart | src/app/core/services/auth.service.ts:30-34 | while a login is in flight, loading is true and the user and storage are those from before the login |
| AuthService.LoginFinish | src/app/core/services/auth.service.ts:52-62 | valid credentials set the registry's user, persist it and report success with "Login realizado com sucesso!"; any other pair keeps user and storage and reports "Email ou senha inválidos!"; loading ends false on both paths |
| AuthService.Login | src/app/core/services/auth.service.ts:30-63 | success holds exactly for a registered email with its password; then the user is the registry entry and is stored; on failure the state differs from before only in loading being false |
| AuthService.LoginThenRestore | src/app/core/services/auth.service.ts:84-100 | a user stored by a successful login is restored exactly by a fresh service |
| AuthService.FailedLoginsIndistinguishable | src/app/core/services/auth.service.ts:52-62 | an unknown email and a wrong password give the identical result and state |
| AuthService.Logout | src/app/core/services/auth.service.ts:66-70 | from any state: no user, no stored record, loading untouched, and exactly one navigation to `/login` |
| AuthService.LogoutIdempotent | src/app/core/services/auth.service.ts:66-70 | logging out again changes nothing and issues the same redirect |
| AuthService.RefreshToken | src/app/core/services/auth.service.ts:110-126 | reports true exactly when a user is present and changes no state |
| AuthInterceptor.BearerToken | src/app/core/interceptors/auth.interceptor.ts:13 | the header value is "Bearer fake-jwt-token-" followed by the id's numeral |
| AuthInterceptor.Intercept | src/app/core/interceptors/auth.interceptor.ts:5-21 | `next` is called exactly once; with no user the request goes unchanged; with a user it gets the bearer and JSON content-type headers, and URL, method, body and every other header are kept |
| AuthInterceptor.BearerTokenDeterminesId | src/app/core/interceptors/auth.interceptor.ts:13 | different user ids never produce the same token |
| AuthInterceptor.HeadersDependOnIdOnly | src/app/core/interceptors/auth.interceptor.ts:10-17 | two users produce the same forwarded request exactly when their ids are equal |
| ErrorInterceptor.GenericMessage | src/app/core/interceptors/error.interceptor.ts:39-40 | the message for an unlisted status begins with "Erro " |
| ErrorInterceptor.StatusMessage | src/app/core/interceptors/error.interceptor.ts:13-41 | statuses 0, 400, 401, 403, 404, 500 and 503 get their fixed messages; any other status gets "Erro <status>: <message>" |
| ErrorInterceptor.StatusEffects | src/app/core/interceptors/error.interceptor.ts:22-29 | 401 requests one logout and no navigation to `/unauthorized`; 403 requests one such navigation and no logout; every other status requests nothing |
| ErrorInterceptor.Handle | src/app/core/interceptors/error.interceptor.ts:11-59 | a success passes through with no effect; every failure is re-thrown carrying the computed message, the original status and the original error |
| ErrorInterceptor.GenericMessagesAreNotFixed | src/app/core/interceptors/error.interceptor.ts:15-41 | a generic message never equals a fixed one |
| ErrorInterceptor.GenericMessageInjective | src/app/core/interceptors/error.interceptor.ts:40 | a generic message determines both its status and the original message |
| SessionPipeline.ApplyEffects | src/app/core/interceptors/error.interceptor.ts:22-29 | without a logout request the session is untouched and the navigations are the requested ones; with one, the session ends logged out with no stored record; every effect yields exactly one navigation |
| SessionPipeline.HandleResponse | src/app/core/interceptors/error.interceptor.ts:11-59 | a success leaves the session and the navigation list as they were; a failure is always re-thrown with its status |
| SessionPipeline.UnauthorizedLogsOut | src/app/core/interceptors/error.interceptor.ts:22-25 | a 401 logs the session out once: no user, no stored record, one navigation (to `/login`), none to `/unauthorized`; the error is re-thrown with status 401 |
| SessionPipeline.ForbiddenKeepsSession | src/app/core/interceptors/error.interceptor.ts:26-29 | a 403 leaves the session exactly as it was and navigates once to `/unauthorized` |
| SessionPipeline.OtherStatusesHaveNoSessionEffect | src/app/core/interceptors/error.interceptor.ts:15-41 | every status other than 401 and 403 leaves the session alone and navigates nowhere, and the error is still re-thrown |
| SessionPipeline.AdminForbiddenScenario | src/app/core/interceptors/error.interceptor.ts:26-29 | an admin who logs in and then meets a 403 is sent to `/unauthorized` and is still an authenticated admin |
| AppRoutes.FirstMatch | src/app/app.routes.ts:4-49 | a table ending in a wildcard always yields the first route that matches the URL |
| AppRoutes.Resolve | src/app/app.routes.ts:4-49 | each of the seven pages activates itself with its declared guards; the empty URL and every unmatched URL redirect to `/dashboard` |
| AppRoutes.PageGuards | src/app/app.routes.ts:10-44 | guards per page: `login` only guestGuard, `unauthorized` none, `dashboard`, `users`, `forms` and `pwa-demo` only authGuard, `admin` authGuard then adminGuard |
| AppRoutes.Navigate | src/app/app.routes.ts:4-49 | after at most one redirect every URL lands on a page; unmatched URLs land on the dashboard behind authGuard |
| AppRoutes.RunGuards | src/app/app.routes.ts:37 | a guard chain allows exactly when every guard allows; otherwise its verdict is that of the first guard in order that denies |
| AppRoutes.AdminChainOrder | src/app/app.routes.ts:34-38 | on `admin`, a denial by authGuard is the verdict whatever adminGuard says; once authGuard allows, adminGuard decides |
| ThemeService.ThemeKeysAreTheKeys | src/app/core/services/theme.service.ts:11-33 | there are exactly three themes and their key list holds exactly the theme names |
| ThemeService.SetThemeAsWritten | src/app/core/services/theme.service.ts:57-63 | as written: any name for which `THEMES[name]` is truthy becomes current and is stored; others change nothing |
| ThemeService.InitAsWritten | src/app/core/services/theme.service.ts:46-55 | as written: a stored name for which `THEMES[name]` is truthy is adopted, else `light` |
| ThemeService.AsWrittenLeavesThemes | src/app/core/services/theme.service.ts:58 | as written, `setTheme('constructor')` and a stored `toString` leave a current name that is not a theme |
| ThemeService.Init | src/app/core/services/theme.service.ts:46-55 | the initial theme is the stored name when it is a theme and `light` otherwise, and is always a theme |
| ThemeService.SetTheme | src/app/core/services/theme.service.ts:57-63 | a theme name becomes current and is stored under `angular-poc-theme`; an unknown name changes nothing, storage included; validity is preserved |
| ThemeService.ToggleTheme | src/app/core/services/theme.service.ts:65-71 | toggling always ends on a theme, which is also what is stored |
| ThemeService.ToggleFollowsCycle | src/app/core/services/theme.service.ts:65-71 | toggling steps light to dark, dark to blue and blue to light |
| ThemeService.ToggleThriceIsIdentity | src/app/core/services/theme.service.ts:65-71 | three toggles return to the starting theme |
| ThemeService.CurrentTheme | src/app/core/services/theme.service.ts:42 | in a valid state the current colours are one of the defined themes (which theme: CurrentThemeAtStart and CurrentThemeAfterSet) |
| ThemeService.CurrentThemeAtStart | src/app/core/services/theme.service.spec.ts:22-25 | with nothing stored, the current theme at startup is `THEMES['light']` |
| ThemeService.CurrentThemeAfterSet | src/app/core/services/theme.service.spec.ts:27-32 | after `setTheme` with a theme name, the current theme is that name's entry of `THEMES` |
| ThemeService.AvailableThemes | src/app/core/services/theme.service.ts:43 | three entries containing every defined theme |
| LoadingService.Show | src/app/core/services/loading.service.ts:13-16 | the count grows by exactly one and loading is on; the invariant (count non-negative, loading exactly when count is positive) is preserved |
| LoadingService.Hide | src/app/core/services/loading.service.ts:18-25 | the count drops by one but never below zero, and loading turns off exactly when it reaches zero; the invariant is preserved |
| LoadingService.ForceHide | src/app/core/services/loading.service.ts:28-31 | from any state: count zero and not loading |
| LoadingService.ShowTimesCount | src/app/core/services/loading.service.ts:13-16 | n shows add exactly n to the count and keep the invariant |
| LoadingService.HideTimesCount | src/app/core/services/loading.service.ts:18-25 | k hides lower the count by k, clamped at zero, and keep the invariant |
| LoadingService.BalancedShowHide | src/app/core/services/loading.service.ts:13-25 | after n shows, n or more hides end not loading and fewer hides keep loading |
| Text.IncludesIffOccurs | src/app/features/users/pages/users-page.component.ts:339-341 | `includes` is true exactly when some window of the text equals the search |
| Text.JoinSplit | src/app/features/users/components/user-card.component.ts:183 | joining the parts of a split gives the original string back |
| Text.SplitJoin | src/app/features/users/components/user-card.component.ts:183 | splitting a join of space-free parts gives the parts back |
| Text.SplitWordThenRest | src/app/features/users/components/user-card.component.ts:183 | a space-free word followed by a space is split off as the first part |
| Text.DecimalRoundTrip | src/app/core/interceptors/auth.interceptor.ts:13 | reading back the numeral of a non-negative number gives the number |
| Text.IntToDecimalInjective | src/app/core/interceptors/auth.interceptor.ts:13 | distinct ids have distinct numerals |
| Seqs.Filter | src/app/features/users/pages/users-page.component.ts:338 | the result is never longer than the input, holds only elements of the input that pass, and holds every element that passes |
| Seqs.FilterCount | src/app/features/users/pages/users-page.component.ts:338 | each passing value occurs in the result exactly as often as in the input, and every other value not at all |
| Seqs.FilterIsSubsequence | src/app/features/users/pages/users-page.component.ts:338 | filtering yields an order-preserving subsequence |
| Seqs.FilterKeepsAll | src/app/features/users/pages/users-page.component.ts:336-342 | when every element passes, the filter is the identity |
| Seqs.FilterAppend | src/app/features/users/pages/users-page.component.ts:425 | filtering distributes over concatenation |
| UsersPage.UserMatchesIff | src/app/features/users/pages/users-page.component.ts:338-342 | the filter's `includes` test holds exactly when the lower-cased search occurs in the lower-cased name, email or company name |
| UsersPage.MatchingCount | src/app/features/users/pages/users-page.component.ts:336-342 | the `includes` filter keeps each user exactly as often as it occurs in the list when its lower-cased name, email or company name contains the search, and drops it otherwise |
| UsersPage.FilteredUsers | src/app/features/users/pages/users-page.component.ts:332-343 | an empty term returns the list unchanged; otherwise exactly the matching users, each as often as in the list, as an order-preserving subsequence |
| UsersPage.FindIndexById | src/app/features/users/pages/users-page.component.ts:421 | the first position holding the id, or -1 exactly when no entry has it |
| UsersPage.SelectedIffFound | src/app/features/users/pages/users-page.component.ts:419-434 | `isUserSelected`'s `some` over ids holds exactly when `toggleUserSelection`'s `findIndex` finds an index, so both tests decide selection the same way |
| UsersPage.RemoveFromSelection | src/app/features/users/pages/users-page.component.ts:463-466 | drops every entry with the id and keeps every other entry as often as before, in order |
| UsersPage.RemoveAbsentId | src/app/features/users/pages/users-page.component.ts:463-466 | removing an id no entry has leaves the selection unchanged |
| UsersPage.ToggleSelection | src/app/features/users/pages/users-page.component.ts:419-430 | a selected user is removed by id and an unselected one is appended, so the user's selected status flips |
| UsersPage.ToggleTwiceRestores | src/app/features/users/pages/users-page.component.ts:419-430 | toggling an unselected user twice restores the original selection |
| UsersPage.FilterNoDuplicateIds | src/app/features/users/pages/users-page.component.ts:425 | filtering a selection with distinct ids keeps the ids distinct |
| UsersPage.ToggleKeepsIdsDistinct | src/app/features/users/pages/users-page.component.ts:419-430 | toggling a user keeps a selection free of duplicate ids |
| UsersPage.DeleteKeepsIdsDistinct | src/app/features/users/pages/users-page.component.ts:463-466 | removing a deleted user's id keeps a selection free of duplicate ids |
| UsersPage.TogglePageSelection | src/app/features/users/pages/users-page.component.ts:419-430 | only the selection changes, and it becomes the toggled selection |
| UsersPage.ClearSelection | src/app/features/users/pages/users-page.component.ts:436-438 | afterwards no user is selected; nothing else changes |
| UsersPage.DeleteUserSucceeded | src/app/features/users/pages/users-page.component.ts:406-417 | after a successful delete, no user with that id is selected and everything else is kept |
| UsersPage.DeleteSelectedUsers | src/app/features/users/pages/users-page.component.ts:440-461 | confirmation is asked exactly when something is selected; on confirmation, one delete request per selected user in order and an empty selection; otherwise nothing changes |
| UsersPage.IdsCount | src/app/features/users/pages/users-page.component.ts:448-449 | in a selection without duplicate ids, each selected id occurs exactly once among the selection's ids and any other id not at all |
| UsersPage.BulkDeleteRequestsEachIdOnce | src/app/features/users/pages/users-page.component.ts:440-461 | with ids kept distinct, a confirmed bulk delete requests each selected id exactly once, and an id is requested exactly when a selected entry has it |
| UsersPage.ShowCreateForm | src/app/features/users/pages/users-page.component.ts:358-361 | the form is shown with no user being edited; nothing else changes |
| UsersPage.EditUser | src/app/features/users/pages/users-page.component.ts:363-366 | the form is shown editing that user; nothing else changes |
| UsersPage.CloseForm | src/app/features/users/pages/users-page.component.ts:368-372 | the form is hidden, no user is being edited and saving is off; search and selection are kept |
| UsersPage.FormRoundTrip | src/app/features/users/pages/users-page.component.ts:358-372 | opening the form in either mode and closing it leaves the same state as closing it directly |
| UsersPage.SaveUser | src/app/features/users/pages/users-page.component.ts:374-404 | saving is raised; an edit sends an update for the edited user's id, and otherwise a create is sent |
| UsersPage.SaveFinished | src/app/features/users/pages/users-page.component.ts:380-401 | success closes the form; failure only lowers saving |
| UserCard.UserInitials | src/app/features/users/components/user-card.component.ts:180-188 | at most two characters, none of them a lower-case ASCII letter |
| UserCard.FirstCharsAreWordStarts | src/app/features/users/components/user-card.component.ts:183-185 | taking the first character of every space-separated part finds exactly the non-space characters that begin the string or follow a space, in order |
| UserCard.InitialsAreWordStarts | src/app/features/users/components/user-card.component.ts:180-188 | the initials are the first two word-starting characters of the name, upper-cased |
| UserCard.TwoWordInitials | src/app/features/users/components/user-card.component.ts:180-188 | a name starting with two space-separated words yields the upper-cased first letters of those two words |
| UserCard.OneWordInitial | src/app/features/users/components/user-card.component.ts:180-188 | a one-word name yields its single upper-cased initial |
| UserCard.InitialsOfTwoWords | src/app/features/users/components/user-card.component.spec.ts:48-50 | "João Silva" gives "JS" |
| UserCard.InitialsOfOneWord | src/app/features/users/components/user-card.component.spec.ts:52-58 | "João" gives "J" |
| UserCard.InitialsOfFourWords | src/app/features/users/components/user-card.component.spec.ts:60-66 | "João Pedro Silva Santos" gives "JP" |
| UserCard.WebsiteUrl | src/app/features/users/components/user-card.component.ts:190-193 | input starting with "http" is returned unchanged; any other input gets "https://" in front; the result always starts with "http" |
| UserCard.WebsiteUrlIdempotent | src/app/features/users/components/user-card.component.ts:192 | applying the link rule twice is applying it once |
| UserCard.WebsiteUrlKeepsSchemelessHost | src/app/features/users/components/user-card.component.ts:192 | "httpbin.org" is kept as is, without a scheme |
| UserCard.WebsiteUrlWithScheme | src/app/features/users/components/user-card.component.spec.ts:68-78 | the result always has an http or https scheme; input with one is kept and other input gets "https://" in front |
| UserCard.WebsiteUrlWithSchemeIdempotent | src/app/features/users/components/user-card.component.spec.ts:68-78 | applying the corrected rule twice is applying it once |
| UserCard.WebsiteUrlVersionsAgree | src/app/features/users/components/user-card.component.ts:192 | the written and the corrected rule differ exactly on scheme-less input beginning with "http" |
| UserCard.OnDelete | src/app/features/users/components/user-card.component.ts:201-205 | asks "Tem certeza que deseja excluir <name>?" and emits the user's id once when confirmed, nothing otherwise |
| UsersPage.CardDeleteDeselects | src/app/features/users/components/user-card.component.ts:201-205 | a confirmed card delete emits one id, and once the page's delete succeeds that user is no longer selected while every other entry stays as often as before; an unconfirmed one emits nothing |
| Truncate.Transform | src/app/shared/pipes/truncate.pipe.spec.ts:14-52 | null, undefined and empty input give ""; input within the limit is unchanged; longer input gives its first `limit` characters followed by the trail; the length never exceeds limit plus trail |
| Truncate.TransformDefault | src/app/shared/pipes/truncate.pipe.spec.ts:25-32 | with the defaults the result is at most 53 characters long |
| Truncate.InputOrPrefixAndTrail | src/app/shared/pipes/truncate.pipe.spec.ts:20-52 | the result is the input itself or a proper prefix of it followed by the trail |
| Truncate.DefaultLength | src/app/shared/pipes/truncate.pipe.spec.ts:25-32 | an input longer than 50 becomes 53 characters ending in "..." |
| Truncate.TestCases | src/app/shared/pipes/truncate.pipe.spec.ts:14-52 | the pipe's listed cases, including ("a", 1) giving "a", ("ab", 1) giving "a..." and limit 0 giving just the trail |

## Findings

| source | as written | input that shows it | evidently intended | confidence | as-written member | corrected member |
|---|---|---|---|---|---|---|
| src/app/core/services/theme.service.ts:58 | `if (THEMES[themeName])` tests truthiness, which also holds for names inherited from `Object.prototype`; the constructor's check at line 49 does the same | `setTheme('constructor')` makes "constructor" the current theme name; a stored "toString" is adopted at startup | only the three own keys `light`, `dark` and `blue` are accepted, so the current name is always a theme | not executed; high | ThemeService.AsWrittenLeavesThemes | ThemeService.SetTheme |
| src/app/features/users/components/user-card.component.ts:192 | `website.startsWith('http')` treats any text beginning with "http" as already having a scheme | the website "httpbin.org" is returned unchanged, so the link is relative to the application | only an `http://` or `https://` scheme is kept; everything else gets `https://` | not executed; medium | UserCard.WebsiteUrlKeepsSchemelessHost | UserCard.WebsiteUrlWithScheme |

The theme model that the other theme members use checks own keys only:
`Init`, `SetTheme` and `ToggleTheme`. `SetThemeAsWritten` and `InitAsWritten`
keep the written behaviour.

## Left out

- Guard bodies: `src/app/core/guards/auth.guards.ts` is not part of this model. The guards are abstract: the caller supplies each guard's verdict, and only the guard order of the route table is modelled.
- Timing: the simulated delays in login and `refreshToken` are atomic steps. Login is split into its start (loading raised) and its finish; concurrent or overlapping logins are not modelled.
- AuthService.RefreshToken: the catch branch that logs out cannot be reached, because the delay never rejects; it is not modelled.
- Storage and JSON: the stored user is an abstract value, one of missing, empty string, serialized user or malformed. Well-formed JSON that is not a user (such as `null` or a number) is not modelled. A failing `setItem` is a `writable` parameter.
- Registry lookup: `users[email]` for a prototype name such as "constructor" is truthy, but its `password` is undefined and never equals a string password. A map lookup therefore gives the same result, and the prototype chain is not modelled here.
- Console logging in every service and interceptor.
- ThemeService.SetTheme: the storage write is assumed to succeed (as in ThemeService.SetThemeAsWritten and ThemeService.ToggleTheme). The source does not catch a throwing `setItem`: the name is already current, storage keeps its old value, `applyTheme` is skipped and the exception reaches the caller. That path is not modelled.
- Theme DOM effects: `applyTheme`'s CSS variables and the body class.
- Case mapping: `toLowerCase`/`toUpperCase` map ASCII letters only; other characters are unchanged.
- String units: strings are sequences of Unicode code points, not UTF-16 code units. So `length`, `charAt`, `slice` and `substring` differ from the source on characters outside the Basic Multilingual Plane. For example, the source's `charAt(0)` of an emoji is a lone surrogate, while the model takes the whole emoji as the first initial. Truncation lengths differ the same way.
- HTTP details: `HttpHeaders` name case-insensitivity and lazy header evaluation are not modelled; request bodies are opaque text; numeric ids are unbounded integers (non-integer numbers are not modelled, nor the loss of integer precision above 2^53 or the exponent form `1e+21` a template literal prints from 10^21 up).
- The order in which the two interceptors are registered (the application config) is not part of this model; each interceptor is modelled on its own.
- The user service's HTTP calls and `loadUsers`: saves and deletes are returned as requests, and reloading the list is not modelled.
- `onEdit`, `onSelect` and `isSelected` on the user card only forward their input and are not modelled separately.
- Truncate.Transform: the model follows the pipe's spec file; negative limits are excluded by typing the limit as a natural number.
- Routing: URLs are lists of path segments; query parameters, child routes and lazy loading are not modelled.
