# Task list and navigation guard of a personal to-do web application

This project models, in Dafny, the client-side logic of a small to-do application
whose persistence and sign-in are delegated to a hosted backend service:

- the **task-list view-model** of the home page (`app/page.tsx`): the ordered list
  of tasks, each a `Todo` record of the service plus a UI-only `expanded` flag, the
  title and description inputs and the filter selector, with one method per event
  handler (load after sign-in, add, toggle completion, delete, toggle expand) and
  the filtered view and "tasks remaining" count derived from the state;
- the **navigation guard** of the root layout (`app/layout.tsx`): the rule that
  sends signed-out visitors to `/auth` and signed-in users away from it, never
  while the session check is still loading, and the loading gate in front of the
  page content.

Layout of the project:

| file | module | contents |
|---|---|---|
| `wrappers.dfy` | `Wrappers` | `Option`, and `Outcome` (the result of a remote call: `Ok(value)` or `Err`) |
| `todos.dfy` | `Todos` | the `Todo` row, the insert payload `NewTodo`, the update `TodoUpdate`, the `User` |
| `strings.dfy` | `Strings` | JavaScript's `String.prototype.trim` and its properties |
| `sequences.dfy` | `Sequences` | JavaScript's `Array.prototype.filter` and its laws |
| `task_list.dfy` | `TaskList` | the pure list transforms each handler applies, with their lemmas |
| `home_page.dfy` | `HomePage` | class `Home`: the page's state and one method per handler; two sample sessions checked against the contracts |
| `layout.dfy` | `Layout` | the redirect rule and the loading gate |

How the model treats the page:

- Each handler runs to completion as one step. The outcome of its remote call is
  a parameter (`Ok(record)` or `Err`), and the request it would send is its
  result (`None` when it sends nothing). The backend itself is not modelled: a
  fetched list is taken as given.
- `expanded` is `Option<bool>`, because the page's type declares it optional; the
  page reads an absent flag as false, so toggling it gives `true`. The class
  invariant `Home.Valid()` says every stored row has a defined flag (the load,
  the add and the toggle all set one), and that is what makes toggling the flag
  twice restore the list (`ToggleExpandUndefinedFlag` shows it would not for an
  undefined flag).
- `description` is `Option<string>`: optional in the client type, nullable in
  the table.
- Blank inputs are decided by a model of `trim` with ECMAScript's white space
  and line terminator characters.

Behaviours of the code worth noting, all modelled as written:

- `deleteTask` sends the delete for any identifier, present locally or not; only
  the local removal is then a no-op for an absent one.
- A failed load leaves the list as it was (it is not emptied), and signing out
  does not clear the list; the page only stops showing it.
- `toggleTask` replaces every row carrying the identifier, and the request's new
  completion flag is the negation of the first such row's.

## Model

| member | source | states |
|---|---|---|
| `Strings.IsWhiteSpace` | app/page.tsx:40-46 | the ECMAScript white space and line terminator set that `trim` cuts: no ASCII letter or digit is in it, and all of it lies in the Basic Multilingual Plane |
| `Strings.Trim` | app/page.tsx:40-46 | the trimmed string is empty exactly when the input is all white space, and otherwise starts and ends with a non-white-space character |
| `Strings.TrimInfix` | app/page.tsx:46 | the trimmed string is an infix of the input with only white space cut off at either end |
| `Strings.TrimIdempotent` | app/page.tsx:46 | trimming a trimmed string changes nothing |
| `Sequences.Filter` | app/page.tsx:78 | `filter` returns at most as many elements as it gets, each of them passing the callback |
| `Sequences.FilterMembers` | app/page.tsx:78 | an element is in the result exactly when it is in the input and passes the callback |
| `Sequences.FilterConcat` | app/page.tsx:90-94 | filtering preserves order: it distributes over concatenation |
| `Sequences.FilterKeepsAll` | app/page.tsx:93 | when every element passes, the result is the input unchanged |
| `Sequences.FilterAgree` | app/page.tsx:119 | two callbacks that agree on every element select the same elements |
| `Sequences.FilterSplit` | app/page.tsx:90-94 | a callback and its negation split the input: disjoint, lengths add up, multisets add up to the input's |
| `TaskList.Loaded` | app/page.tsx:25 | the loaded list has the fetched length and holds each fetched record at its own index with the flag set to false |
| `TaskList.LoadedRoundTrip` | app/page.tsx:24-25 | dropping the flags from a loaded list gives back exactly the fetched list; every flag is defined and collapsed |
| `TaskList.CreateRequest` | app/page.tsx:43-48 | the insert carries the user's id, the untrimmed title and `is_complete = false`; its description is the trimmed description, or the placeholder when the description is blank |
| `TaskList.CreateRequestDescription` | app/page.tsx:46 | the description sent is never empty and is already trimmed |
| `TaskList.Prepended` | app/page.tsx:50 | the created record comes first, collapsed, followed by the old list in its old order |
| `TaskList.FindById` | app/page.tsx:60-61 | `find` fails exactly when no row has the id; otherwise it returns the row at the first index with that id |
| `TaskList.ReplaceById` | app/page.tsx:67-69 | the length is unchanged; each row with the id becomes the server record with that row's own flag; every other row is untouched |
| `TaskList.ReplaceByIdKeepsFlags` | app/page.tsx:67-69 | replacing keeps every row's flag, so a list whose flags are all defined stays so |
| `TaskList.ReplaceAbsent` | app/page.tsx:67-69 | replacing an id no row has leaves the list unchanged |
| `TaskList.ReplaceByIdKeepsUnique` | app/page.tsx:67-69 | with a server record that keeps its id, unique ids stay unique |
| `TaskList.RemoveById` | app/page.tsx:78 | the list after removal is no longer than before and no row in it has the removed id |
| `TaskList.RemoveByIdMembers` | app/page.tsx:78 | a row survives exactly when it was in the list and its id differs |
| `TaskList.RemoveByIdConcat` | app/page.tsx:78 | removal preserves the order of the remaining rows |
| `TaskList.RemoveAbsent` | app/page.tsx:78 | removing an id no row has leaves the list unchanged |
| `TaskList.RemoveUnique` | app/page.tsx:77-78 | with unique ids, removing a present id drops exactly the row at its index and shortens the list by one |
| `TaskList.RemoveByIdKeeps` | app/page.tsx:78 | removal keeps every flag defined |
| `TaskList.Truthy` | app/page.tsx:86 | an optional flag reads as true exactly when it is present and true, so an absent flag reads as false |
| `TaskList.ToggleExpandById` | app/page.tsx:84-88 | the length is unchanged; rows with the id get the negated flag and keep their record; every other row is untouched |
| `TaskList.ToggleExpandInvolution` | app/page.tsx:84-88 | expanding changes no record, keeps defined flags defined, and toggling twice restores a list whose flags are all defined |
| `TaskList.ToggleExpandUndefinedFlag` | app/page.tsx:8-10 | a row whose optional flag is absent is not restored by toggling twice: it ends collapsed but defined |
| `TaskList.Selector` | app/page.tsx:90-94 | the callback of the filtered view: `active` keeps a row exactly when it is incomplete, `completed` exactly when it is complete, any other selector keeps every row |
| `TaskList.Filtered` | app/page.tsx:90-94 | `active` keeps exactly the incomplete rows, `completed` exactly the complete ones, any other selector the whole list |
| `TaskList.FilteredConcat` | app/page.tsx:90-94 | the filtered view preserves the list's order |
| `TaskList.FilteredPartition` | app/page.tsx:90-94 | the `active` and `completed` views are disjoint and together hold every row exactly as often as the list |
| `TaskList.Incomplete` | app/page.tsx:119 | the callback of the remaining count agrees on every row with the `active` selector |
| `TaskList.Remaining` | app/page.tsx:119 | the remaining count is at most the number of rows and equals the length of the `active` view |
| `TaskList.RemainingIsActive` | app/page.tsx:119 | the remaining count equals the length of the `active` view, and with the `completed` view it accounts for every row |
| `HomePage.Home.constructor` | app/page.tsx:14-17 | the page starts with no tasks, empty inputs and the `all` selector |
| `HomePage.Home.SetNewTask` | app/page.tsx:141 | the title input holds what was typed |
| `HomePage.Home.SetNewDescription` | app/page.tsx:154 | the description input holds what was typed |
| `HomePage.Home.SetFilter` | app/page.tsx:164 | the selector holds the chosen value |
| `HomePage.Home.FetchTasks` | app/page.tsx:20-32 | a fetch is requested exactly when a user is present, for that user; on success the list becomes the loaded list, otherwise it is unchanged; only the list may change |
| `HomePage.Home.AddTask` | app/page.tsx:38-56 | no request and no change without a user or with a blank title; otherwise the insert of `CreateRequest`; on success the record is prepended and both inputs cleared, on failure list and inputs are unchanged |
| `HomePage.Home.ToggleTask` | app/page.tsx:58-73 | no request and no change for an absent id; otherwise the update inverting the first matching row's completion; on success the list is `ReplaceById` of the old one, on failure unchanged |
| `HomePage.Home.DeleteTask` | app/page.tsx:75-82 | the delete of the given id is sent on every call, whether or not a row has that id; on success the list is `RemoveById` of the old one, on failure unchanged; nothing else changes |
| `HomePage.Home.FilteredTasks` | app/page.tsx:90-94 | the rows shown are the filtered view of the list under the current selector, all drawn from the list |
| `HomePage.Home.RemainingCount` | app/page.tsx:119 | the header's count is the length of the `active` view, and with the `completed` view accounts for every row |
| `HomePage.Home.ToggleExpand` | app/page.tsx:84-88 | the list is `ToggleExpandById` of the old one and keeps every flag defined; nothing else changes |
| `Layout.Redirect` | app/layout.tsx:28-36 | there is no redirect exactly when loading or when the user is already where they belong; a target always differs from the current path and is where the user belongs |
| `Layout.NoRedirectWhileLoading` | app/layout.tsx:29 | while loading, no redirect is issued |
| `Layout.RedirectCases` | app/layout.tsx:30-35 | once loaded: signed out off `/auth` goes to `/auth`; signed in on `/auth` goes to `/`; the other two cases stay |
| `Layout.RedirectIdempotent` | app/layout.tsx:28-36 | at the path it redirected to, with the same user and loading state, the guard issues no redirect |
| `Layout.Body` | app/layout.tsx:41-47 | the page content is rendered exactly when loading has finished; otherwise the loading placeholder |

## Left out

- Client construction and the environment-variable check (`lib/supabase.ts:5-13`): configuration, not logic.
- The session hook `useSupabaseAuth` (`lib/supabase.ts:30-52`): an asynchronous session fetch and an event subscription of the backend library; the model takes the user and the loading flag as inputs.
- The remote wrappers `todoApi` (`lib/supabase.ts:55-98`): each is one call into the backend library; the outcome of each call is a parameter of the handler, and the filtering by owner and the newest-first order of a fetched list are the service's, not checked by the model.
- React's scheduling of the fetch effect on a change of `user`: the caller of `HomePage.Home.FetchTasks` decides when it runs.
- Interleaving of handlers: each handler reads the list captured when it started and overwrites it when its call returns, so overlapping requests can overwrite each other; the model runs each handler as one atomic step.
- Sign-out (`app/page.tsx:34-36`, `components/SignOutButton.tsx`) and the sign-in page (`app/auth/page.tsx`): single calls into the backend library; the sign-in page's own redirect repeats the layout's guard.
- The page's own loading and signed-out placeholders (`app/page.tsx:96-110`), all other markup and styling, and the `console.error` logging of failures.
- The user's e-mail address: only rendered, so `User` keeps only the identifier.
