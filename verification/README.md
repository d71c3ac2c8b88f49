# Verified model of the forum's stateful cores

A Dafny model of eight parts of the forum, with proofs of what each promises:

- the Markdown toolbar: every button is a toggle on a text and a selection;
- the request limiter: a bounded table of fixed windows with a cached earliest expiry;
- the publication window of a user, stored in the database and spent in the publishing transaction;
- the blocked-destination rules: their file, the canonical form of a destination, and the check;
- the signed activity cursor and the pages it leads to;
- the gate between open registration and verified SMTP settings;
- the administrative transactions: their locks, their revisions, who may administer, and the rebind locks;
- the idle rule of sessions whose last use is written lazily.

Code that works step by step is a method (on a class where the source has a mutable object),
proved equal to a function of its input or of the old state; the theorems are about those
functions. Protocols are step functions or step relations, and their theorems quantify over
every list of operations and every schedule. Every lemma turns Dafny's automatic induction off: what
it proves, its body proves. `dafny verify dfyconfig.toml` verifies the project.

## How it is laid out

| part | files |
|---|---|
| Toolbar | `Text`, `Stars`, `InlineCode`, `Lines`, `Fence`, `PrefixLines`, `Cells`, `Table`, `TableToggle`, `Misses`, `Toolbar` |
| Limits | `Durations`, `FixedWindow`, `RequestLimiter`, `Admission`, `Overtaking`, `Publication` |
| Destinations | `Separated`, `ByteOrder`, `Decimal`, `Escapes`, `Path`, `Rules` |
| Activity | `Bytes`, `Base64`, `Groups`, `Cursor`, `Paging` |
| Transactions | `RegistrationGate`, `Governance`, `Locks`, `LockOrder`, `Rebind` |
| Sessions | `SessionIdle` |

Texts of the toolbar are sequences of UTF-16 code units, texts of the destination rules are
byte strings, and instants and durations are whole nanoseconds. Go's 64-bit integers appear
where the code reads or writes their bytes; revisions stop at the largest one.

## What the proofs found

Each of these is a lemma; where a promise fails, the exact condition under which it holds is
proved for all inputs.

- Toggles. Bold, italic and inline code restore a text exactly unless its author wrote an
  escape where the toolbar would write its own (`Stars.ToggleRestores`,
  `InlineCode.ToggleRestores`), so the "byte-for-byte" comment in
  `assets/scripts/markdown-toolbar.js:237-240` needs that condition. Fences fail in two
  cases about carriage returns (`Fence.ToggleRestores`), and tables when the touched breaks
  differ or a body row follows (`TableToggle.ToggleRestores`). Quotes and lists never fail
  (`PrefixLines.ToggleRestores`). `Misses` has an input for each kind of failure.
- Opening a fence can return a selection end behind the text: `Fence.OpenedRangeExactly`,
  `Misses.RangeLeavesText`.
- The limiter reads the clock before it takes its lock, so admissions can overtake each other.
  Twice the limit in a window then holds exactly when no admission stalls at all (or half a window,
  for a limit of one): `Overtaking.TwiceTheLimitExactly`; one client alone can exceed it within
  20 ms: `Overtaking.OvertakingOneself`. For a given stall below a window, no schedule exceeds
  `Peak` (`Admission.PeakBounds`), and one attains it while a table can be large enough
  (`Overtaking.PeakIsReached`), so that exactly the multiples of the limit from `Peak` on hold
  (`Overtaking.MultipleExactly`). No fixed
  multiple holds for all stalls (`Overtaking.NoMultipleHolds`), but three times the limit does while
  the clients fit the table (`Admission.OvertakingIsBounded`).
- The limiter's index can be later than an expired entry, so a full table can refuse a client
  that a scan would admit: exactly when, `RequestLimiter.FastPathDiffersExactly`; a run,
  `RequestLimiter.StaleIndexRefuses`. It is exact from construction or the last scan until a window
  is reset in place (`QuietFastPathIsScan`), and the refusal never lasts beyond one window after the
  greatest start of a window (`AdmittedOneWindowLater`).
- After the database clock has stepped back, the advised wait of a rejected publication can be too
  short: `Publication.RegressionOutlastsAdvice`; exactly when, `Publication.RetryIsGranted`.
- Dot-segment removal differs from section 5.2.4 of RFC 3986 exactly when the path ends in a dot
  segment after an empty segment: `Path.AgreesWithRfcExactly`.
- Completing an email test requests the administrator's user row last (its audit row references
  the user), against the order every other administrative transaction but the claim keeps. Exactly
  which mixes of any number of transactions can deadlock: `LockOrder.AdministrationIsDeadlockFree`.
  Either the same administrator's next test is reserved, even when the completing one failed; or the
  completing one was accepted, somebody updates the SMTP settings or opens registration, and the
  control row is updated by the completing administrator, or by one that a chain of role changes,
  membership changes or revocations leads to, each locking a lower and then a higher user, at most one
  of them a role change. Two transactions suffice when all is done by one administrator (`LockOrder.TwoDeadlockExactly`; a run,
  `LockOrder.CompletionCanDeadlock`), but three can deadlock of which no two can:
  `LockOrder.ThreeCanDeadlock`.
- A claim locks its session row before its user row, a revocation the other way round. Their locks
  alone could deadlock; the count of active administrators and the check of the revoking one never let
  both get that far: `Governance.GuardsPreventDeadlock`. With these guards claims add no deadlock
  to any mix (`LockOrder.AdministrationIsDeadlockFree`).
- Rebinds lock identities in the byte order of their names, but the locks are named by hashes. Any
  number of rebinds can deadlock exactly when their hashed keys form a circle, two when they are in
  opposite orders, which needs a collision: `Rebind.DeadlockFreeExactly`, `Rebind.TwoDeadlockExactly`,
  `Rebind.CrossingCollides`.
- The count that guards the demotion of an administrator never protects the last one, who is the
  acting one; it only ever refuses a target that was not counted: `Governance.ContinuityGuard`.
- Bootstrap and claim do not ask whether the account is accepted. Raising one that is not spends the
  only bootstrap and leaves nobody active: `Governance.RaiseCanLockOut`.
- A request overtaken by one with a later clock reading is answered with an error rather than as
  anonymous: `SessionIdle.ConcurrentUse`.

## Model

| member | source | states |
|---|---|---|
| Text.AdjacentRun | assets/scripts/markdown-toolbar.js:36-44 | The walk finds exactly the maximal run of the character that touches the position on the given side. |
| Text.EscapedRunBefore | assets/scripts/markdown-toolbar.js:50-54 | The walk finds exactly the backslash pairs that end at the position. |
| Text.EscapedRunAfter | assets/scripts/markdown-toolbar.js:56-60 | The walk finds exactly the backslash pairs that start at the position. |
| Text.UnescapeInvertsEscape | assets/scripts/markdown-toolbar.js:118-124 | Escaping the runs beside a delimiter and unescaping what a scan finds there restores text and selection if and only if the author wrote no escape right after the right run. |
| Stars.WrapStars | assets/scripts/markdown-toolbar.js:66-125 | The cursor code computes the case analysis on what precedes the selection, the selection and what follows, that the toggle law is about. |
| Stars.ToggleRestores | assets/scripts/markdown-toolbar.js:66-125 | For every text, selection and width: when the first call wraps, the returned selection is the content, and the second call restores text and selection if and only if no authored escape touches the runs where the toolbar would read it as its own. |
| Misses.ItalicsMiss | assets/scripts/markdown-toolbar.js:66-125 | A text whose authored escape the second call takes for the toolbar's. |
| InlineCode.MaximumBacktickRun | assets/scripts/markdown-toolbar.js:175-187 | The counter loop computes the longest run. |
| InlineCode.LongestRunIsLongest | assets/scripts/markdown-toolbar.js:175-187 | That run occurs in the text and no longer one does. |
| InlineCode.UnwrapInlineCode | assets/scripts/markdown-toolbar.js:215-235 | Unwrapping happens exactly when both padded delimiters stand around the selection and no bare backtick lengthens either; it removes them and their escapes. |
| InlineCode.InlineCode | assets/scripts/markdown-toolbar.js:241-271 | The whole action, blank selections without padding included, as one function of the three parts of the text. |
| InlineCode.ToggleRestores | assets/scripts/markdown-toolbar.js:237-271 | For every text and selection: when the first call wraps, the second restores both exactly, if and only if no escaped backtick follows the right backtick run. |
| Misses.CodeMisses | assets/scripts/markdown-toolbar.js:215-271 | The same for an escaped backtick. |
| InlineCode.DelimiterMatchesOnlyItsPair | assets/scripts/markdown-toolbar.js:237-271 | The run that opens the span and the run that closes it are exactly one longer than the longest run between them, so (CommonMark section 6.1) they match each other and nothing inside. |
| Lines.SourceLines | assets/scripts/markdown-toolbar.js:273-292 | The scan returns the canonical line list with the true position of every line's start, text end and successor. |
| Lines.SplitIsCanonical | assets/scripts/markdown-toolbar.js:273-292 | Every text splits into lines whose breaks are LF or CRLF, only the last without one, and they join to the text. |
| Lines.SplitOfJoin | assets/scripts/markdown-toolbar.js:273-292 | No other such list joins to that text. |
| Lines.LineIndexAt | assets/scripts/markdown-toolbar.js:294-299 | The loop finds the line that holds a position. |
| Lines.TouchedLineRange | assets/scripts/markdown-toolbar.js:294-306 | The first and last touched lines are those holding the selection's start and its last position. |
| Lines.TouchedBounds | assets/scripts/markdown-toolbar.js:301-306 | They are in order and contain both ends of the selection. |
| Lines.LocalLineEnding | assets/scripts/markdown-toolbar.js:308-314 | The break of the first touched line that has one, else that of the line before, else LF. |
| Fence.FencedCode | assets/scripts/markdown-toolbar.js:318-350 | The slices and positions of the editor's code give the edit on the line list that the toggle law is about. |
| Fence.ToggleRestores | assets/scripts/markdown-toolbar.js:318-350 | For every source and selection: when the first call adds fences, the second restores text and selection (a placeholder standing in for empty content) if and only if closing neither absorbed a carriage return into a break nor let the selection reach past a wider break. |
| Misses.FenceAbsorbs | assets/scripts/markdown-toolbar.js:337-349 | A lone carriage return that closing turns into a CRLF. |
| Misses.FenceSpills | assets/scripts/markdown-toolbar.js:320-327 | Mixed breaks where the second call's selection reaches the closing fence. |
| Fence.UniformNeverMisses | assets/scripts/markdown-toolbar.js:318-350 | Neither happens when the source's breaks are alike. |
| Fence.FenceOutlastsContent | assets/scripts/markdown-toolbar.js:337-341 | The fence is a fence and longer than every backtick run of the content, so (CommonMark section 4.5) no content line closes it. |
| Fence.OpenedRangeExactly | assets/scripts/markdown-toolbar.js:327-335 | Exactly when taking fences away leaves the selection inside the text. |
| Misses.RangeLeavesText | assets/scripts/markdown-toolbar.js:327-335 | A fenced line whose opening returns an end one past the text. |
| PrefixLines.MapPosition | assets/scripts/markdown-toolbar.js:157-167 | The loop over edits computes the mapped position. |
| PrefixLines.ListChanges | assets/scripts/markdown-toolbar.js:137-148 | The edits are one per touched line, each at the line's start. |
| PrefixLines.CopyChanged | assets/scripts/markdown-toolbar.js:149-155 | The piecewise copy is the touched lines, each with its prefix added or removed, joined again. |
| PrefixLines.PrefixTouched | assets/scripts/markdown-toolbar.js:130-173 | The whole action as a function of text, selection and kind. |
| PrefixLines.ToggleRestores | assets/scripts/markdown-toolbar.js:130-173 | For every text, selection and kind: when the first call adds prefixes, the second call on what it returned restores the text and both ends of the selection, however many lines and however long the numerals. |
| Cells.UnescapeCell | assets/scripts/markdown-toolbar.js:374-383 | The loop computes the unescaping that the inversion law is about. |
| Cells.EscapedInOnePass | assets/scripts/markdown-toolbar.js:370-372 | Replacing backslashes and then bars is escaping each unit once. |
| Cells.UnescapeInverts | assets/scripts/markdown-toolbar.js:370-383 | Unescaping inverts escaping, for every text. |
| Cells.PrefixMapsBack | assets/scripts/markdown-toolbar.js:397-399 | The escaped form of a prefix decodes to that prefix: columns map back. |
| Table.RecognizedTable | assets/scripts/markdown-toolbar.js:401-418 | The two loops find the nearest table at or above the selection that holds all touched lines, and where its body ends. |
| Table.BodyEndRows | assets/scripts/markdown-toolbar.js:408-413 | The body is the maximal block of body rows after the separator. |
| Table.Generate | assets/scripts/markdown-toolbar.js:452-476 | The generated pieces join to the table's lines, and every recorded cell start is the place of that cell. |
| Table.MapForward | assets/scripts/markdown-toolbar.js:477-488 | A position goes to its row's cell, as far into it as the escaped text before its column is long. |
| Table.Make | assets/scripts/markdown-toolbar.js:446-493 | Making a table as an edit on the line list, both ends of the selection mapped into the cells. |
| Table.MapBack | assets/scripts/markdown-toolbar.js:430-439 | A position goes to its row's value, as far into it as the encoded text before it decodes to. |
| Table.Unmake | assets/scripts/markdown-toolbar.js:426-444 | Giving a table back as an edit on the line list, both ends mapped out of the cells. |
| Table.TableAction | assets/scripts/markdown-toolbar.js:423-494 | The whole action as a function of lines and selection. |
| TableToggle.GivenBackExactly | assets/scripts/markdown-toolbar.js:423-494 | The text given back is the one the table was made from if and only if the touched breaks are alike and no line shaped like a body row follows. |
| TableToggle.SettlesInside | assets/scripts/markdown-toolbar.js:430-444 | A selection end within a touched line's text comes back to where it was. |
| TableToggle.ToggleRestores | assets/scripts/markdown-toolbar.js:423-494 | For every source and selection: when the first call makes a table, the second call on what it returned restores text and settled selection if and only if the touched breaks are alike and no body row follows. |
| Misses.TableEvens | assets/scripts/markdown-toolbar.js:308-314 | Touched lines with breaks of both kinds, which the second call gives back with breaks of one kind. |
| Misses.TableContinues | assets/scripts/markdown-toolbar.js:408-413 | A line shaped like a body row behind the touched one, which the second call takes for the table's. |
| Toolbar.WrapInline | assets/scripts/markdown-toolbar.js:11-34 | The marker action as a function of the three parts of the text. |
| Toolbar.InlineToggleRestores | assets/scripts/markdown-toolbar.js:11-34 | When the first call wraps in any marker, the second restores text and selection. |
| Toolbar.LinkSelectsTheBlank | assets/scripts/markdown-toolbar.js:355-368 | The link's selection is what is left to fill in, and the text around the link is unchanged. |
| Toolbar.Transform | assets/scripts/markdown-toolbar.js:502-532 | Dispatch: each action on a valid selection, no change for an unknown action, and the text with an empty selection for an invalid range. |
| FixedWindow.AtMostTwiceTheLimit | internal/abuse/request_limiter.go:76-88 | Grants charged to windows that do not overlap, each holding at most the limit: no interval one window long holds more than twice the limit. |
| FixedWindow.AtMostTimesTheLimit | internal/abuse/request_limiter.go:76-88 | For windows with play, dated somewhat early or late and started somewhat closer than a window: at most the multiple of the limit that the play leaves room for. |
| RequestLimiter.RequestLimiter.NewRequestLimiter | internal/abuse/request_limiter.go:45-57 | Construction succeeds exactly with a clock, an entropy source that gives the key, and a configuration in bounds; the table is empty. |
| RequestLimiter.RequestLimiter.Admit | internal/abuse/request_limiter.go:66-107 | Result and whole new table as a function of the old table, the client and the time; addresses that are invalid or have a zone are refused and change nothing. |
| RequestLimiter.RequestLimiter.Reclaim | internal/abuse/request_limiter.go:109-123 | In whatever order the map is visited: the unexpired entries stay, no others, and the index becomes their least expiry. |
| RequestLimiter.AllowedWithinAnyWindow | internal/abuse/request_limiter.go:76-123 | While the readings are in the order in which the lock is taken, any interval one window long holds at most twice the limit of one client's allowed requests, reclaimed and recreated entries included. |
| RequestLimiter.RunIsBounded | internal/abuse/request_limiter.go:66-123 | On every run, however the clock moves: at most capacity entries, no count above the limit, and the index is some entry's expiry. |
| RequestLimiter.FullTableDecision | internal/abuse/request_limiter.go:90-98 | Exactly when a full table admits a client it does not hold. |
| RequestLimiter.QuietIsExact | internal/abuse/request_limiter.go:76-107 | While no window was reset in place since construction or the last scan, the index is the least expiry of the table. |
| RequestLimiter.QuietFastPathIsScan | internal/abuse/request_limiter.go:90-98 | Then a full table answers a new client as a full scan would. |
| RequestLimiter.FastPathDiffersExactly | internal/abuse/request_limiter.go:90-98 | For any run, a full table answers a new client otherwise than a full scan if and only if the index is later than the reading while some entry has expired. |
| RequestLimiter.StaleIndexRefuses | internal/abuse/request_limiter.go:76-107 | A concrete run after a reset in which it does not. |
| RequestLimiter.AdmittedOneWindowLater | internal/abuse/request_limiter.go:90-107 | For readings in any order: one window after the greatest reading that started a window every client is admitted, full table or not. |
| RequestLimiter.RetryCovers | internal/abuse/request_limiter.go:141-158 | The advised delay is the least whole number of seconds, at least one, that outlasts the window. |
| RequestLimiter.RetryIsEnough | internal/abuse/request_limiter.go:76-158 | For readings in any order: a rate-limited client granted nothing in between is rate-limited again after the advised delay if and only if its entry is kept and its window lasts, never when the window started by its first reading. |
| Admission.HistoriesAreOrderly | internal/abuse/request_limiter.go:66-107 | Every schedule of admissions that read the clock and then take the lock leaves the table its requests make in lock order, no reading later than its turn. |
| Admission.EveryHistoryIsPlayed | internal/abuse/request_limiter.go:66-107 | And every such order of readings and turns is what some schedule leaves. |
| Admission.OvertakingIsBounded | internal/abuse/request_limiter.go:66-123 | In every schedule, for a client's allowed admissions dated by reading or by turn: at most `m` times the limit in any interval one window long, for every `m` of windows shortened by the longest stall that fill two windows, or, when the clients fit the table, whenever `m` less two windows cover the stall. Dated by reading they are the limiter's own grants. |
| Admission.ReadingsAreGrants | internal/abuse/request_limiter.go:76-107 | What the two-step machine charges a client for, dated by its readings, is what `RequestLimiter` grants it on the same requests. |
| Admission.PeakBounds | internal/abuse/request_limiter.go:66-123 | Whatever the capacity and the schedule, for a stall below a window: of the windows that can touch an interval one window long each counts at most the limit, and those that cannot open in it one less. |
| Overtaking.PeakIsReached | internal/abuse/request_limiter.go:66-123 | Some schedule attains that count, while a table can hold a client for each of the windows. |
| Overtaking.MultipleExactly | internal/abuse/request_limiter.go:66-123 | So a multiple of the limit bounds the count for all capacities and schedules if and only if it is at least that count. |
| Overtaking.TwiceTheLimitExactly | internal/abuse/request_limiter.go:66-123 | Twice the limit holds for all capacities and schedules if and only if the longest stall is zero, or, for a limit of one, half a window. |
| Overtaking.OvertakingOneself | internal/abuse/request_limiter.go:71-88 | Nine admissions of one client under a limit of three, stalled at most 20 ms, seven of them read in one second. |
| Overtaking.NoMultipleHolds | internal/abuse/request_limiter.go:90-123 | For every multiple a schedule with stalls below a window that exceeds it, in a table others keep full. |
| Publication.Actor.AdmitPublication | internal/forum/publish.go:500-532 | The stored tuple is replaced exactly by a grant, and kept by a rejection or a failure; the answer is the decision's. |
| Publication.FailsExactly | internal/abuse/publication.go:74-131 | Exactly which inputs fail; the source's later checks never do. |
| Publication.TupleStaysValid | internal/abuse/publication.go:96-131 | Under any sequence of valid policies and a clock that never steps back, the stored tuple stays valid with a start not in the future. |
| Publication.NeverFails | internal/abuse/publication.go:74-131 | So no attempt of such a run fails. |
| Publication.PublishedWithinAnyWindow | internal/abuse/publication.go:74-131 | While the window length is unchanged, any interval that long holds at most twice the greatest established limit of grants. |
| Publication.RetryCovers | internal/abuse/publication.go:134-143 | The advised seconds are the least, at least one, that cover the interval. |
| Publication.RetryIsGranted | internal/abuse/publication.go:106-143 | Exactly when a rejected publication is granted after the advised wait: always without clock regression. |
| Publication.RegressionOutlastsAdvice | internal/abuse/publication.go:106-115 | A concrete regression after which the advised wait is rejected again. |
| Decimal.FormatReadsBack | internal/abuse/policy.go:253-261 | A formatted port reads back as its value. |
| Escapes.CanonicalizeEscapes | internal/abuse/policy.go:282-316 | The byte loop computes the canonical form by units, and fails exactly on a malformed escape. |
| Escapes.SameFormExactly | internal/abuse/policy.go:282-320 | Well-formed texts have the same form exactly when they differ only in digit case and needless escapes of unreserved bytes. |
| Escapes.FormIsFixed | internal/abuse/policy.go:282-316 | The form is its own form and equivalent to what it was made from. |
| Escapes.CanonicalAcrossSlash | internal/abuse/policy.go:282-316 | A text is in the form exactly when its parts at any slash are. |
| Path.RemoveDots | internal/abuse/policy.go:322-344 | The segment loop with its slash repairs is a function of the segment list. |
| Path.ResultIsNormal | internal/abuse/policy.go:322-344 | For every text the result is rooted and has no dot segment, and removing dot segments again changes nothing. |
| Path.NormalPathIsFixed | internal/abuse/policy.go:262-270 | Canonical escapes followed by dot-segment removal is idempotent. |
| Path.EquivalentPathsAgree | internal/abuse/policy.go:262-270 | Equivalent paths have the same normal form. |
| Path.AgreesWithRfcExactly | internal/abuse/policy.go:322-344 | On a rooted path the result is that of section 5.2.4 of RFC 3986, run on its input and output buffers, if and only if the path does not end in a dot segment after an empty kept one. |
| Path.AgreesWithoutEmptySegments | internal/abuse/policy.go:322-344 | In particular wherever no segment but the last is empty. |
| Path.DiffersOnEmptySegment | internal/abuse/policy.go:322-344 | Every rooted path that ends in two slashes and a dot gives another result. |
| Rules.ScanControl | internal/abuse/policy.go:179-186 | The loop finds a control character exactly when there is one. |
| Rules.DecodePolicy | internal/abuse/policy.go:139-177 | The line loop accepts exactly the good lines in strictly ascending order, and collects them. |
| Rules.AcceptedExactlyWhenPrinted | internal/abuse/policy.go:139-177 | A file decodes to given rules if and only if they are valid rules and the file is their printed form, domains then URLs. |
| Rules.BinarySearch | internal/abuse/destination.go:70-72 | On an ascending list the search finds exactly the members, at the place of the target. |
| Rules.Check | internal/abuse/destination.go:50-74 | The verdict, with every error path, as a function of policy and destination; the binary search is plain membership. |
| Rules.StrictIsAuthored | internal/abuse/destination.go:76-133 | A URL in the strict form of the rules has the same canonical form as an authored destination. |
| Rules.RuleIsBlocked | internal/abuse/destination.go:50-133 | Every URL rule of an accepted file is blocked when an author writes it. |
| Rules.EquivalentDestinationsAgree | internal/abuse/destination.go:78-133 | Destinations whose paths and queries differ only in digit case and needless escapes share canonical form and verdict. |
| Bytes.Put | internal/discovery/cursor.go:99-102 | A field is written most significant byte first and the rest of the record is untouched. |
| Bytes.ReadsBack | internal/discovery/cursor.go:123-136 | A written integer reads back. |
| Bytes.WritesBack | internal/discovery/cursor.go:123-136 | Read bytes write back. |
| Base64.RoundTrip | internal/discovery/cursor.go:108-120 | Decoding inverts encoding in the unpadded URL alphabet of section 5 of RFC 4648. |
| Base64.DecodeIsLenient | internal/discovery/cursor.go:119-122 | Decoding alone is not injective, which is why verification encodes again. |
| Groups.CheckAscending | internal/auth/session_authentication.go:163-169 | The loop accepts exactly the strictly ascending lists of positive identifiers. |
| Cursor.StreamAudience | internal/discovery/cursor.go:203-234 | The streamed digest is the code of one message, and fails exactly for an actor that is not canonical. |
| Cursor.AudienceIsInjective | internal/discovery/cursor.go:203-234 | Different valid actors are signed as different messages. |
| Cursor.EncodeCursor | internal/discovery/cursor.go:87-109 | The record filled in place is the text of payload and code. |
| Cursor.IssuesExactly | internal/discovery/cursor.go:87-96 | Exactly when a boundary can be issued. |
| Cursor.RoundTrip | internal/discovery/cursor.go:87-183 | Whatever was issued verifies, belongs to the ring and binds to the same actor with the same boundary, under the issuing ring and after its key has become the previous one. |
| Cursor.VerifiedTextIsUnique | internal/discovery/cursor.go:115-147 | An accepted text is the one encoding of what it verifies to, so no two texts verify to the same cursor; its fields are in bounds. |
| Cursor.RetirementIsImplied | internal/discovery/cursor.go:163-170 | For every accepted text the time check is the age and skew limit alone: the previous-key retirement adds nothing. |
| Paging.FillPage | internal/discovery/store.go:208-228 | The index loop returns the first 25 rows, refuses malformed or unordered rows, and sets the boundary exactly for a full probe. |
| Paging.PageIsNext | internal/discovery/store.go:196-229 | Over a sound visible set the page is the next 25 rows in order, with a boundary exactly when more remain, after which exactly the rest remain. |
| Paging.AfterIsSuffix | internal/discovery/runtime.go:95-121 | The rows strictly after a row's boundary are the rest of the ordered list. |
| Paging.RecentActivity | internal/discovery/runtime.go:45-85 | The snapshot's checks, query and cursor as one function, each failure included. |
| Paging.FollowingFrom | internal/discovery/runtime.go:45-121 | Following cursors from any boundary ends with every remaining row, once, in order, even if keys rotate between the requests. |
| Paging.FollowingShowsEverything | internal/discovery/runtime.go:45-121 | From the first page the concatenated pages are exactly the visible set, each post once, in strictly descending order, within one request a page; each request may find the key of the one before rotated into the previous place. |
| RegistrationGate.OpenMeansVerified | internal/control/mutation.go:123-192 | In every interleaving of control, site and SMTP updates and email tests, open registration means a host whose current revision is verified. |
| RegistrationGate.VerifiedMeansDelivered | internal/administration/email.go:119-194 | And a verified revision means a message was accepted that went out through exactly the settings now stored. |
| RegistrationGate.OneCommitPerRevision | internal/administration/smtp.go:147-220 | Of updates of one row based on the same revision at most one commits. |
| RegistrationGate.RegistrationCanOpen | internal/control/mutation.go:160-191 | The gate is no lock-out: some schedule of configuring, testing and updating opens registration. |
| Governance.OneRaise | internal/governance/bootstrap.go:81-126 | In every interleaving at most one bootstrap or claim commits. |
| Governance.OneCommitPerRevision | internal/administration/account.go:458-508 | Role and membership changes of one account based on the same revision never both commit. |
| Governance.AdministrationContinues | internal/administration/account.go:458-508 | Once an active administrator exists, one exists after every continuation of the run. |
| Governance.ContinuityGuard | internal/administration/account.go:483-491 | Exactly when the count refuses a demotion; and the acting administrator remains active whatever the target becomes. |
| Governance.GuardsPreventDeadlock | internal/governance/setup.go:114-159 | In every run of role and membership changes, session revocations, bootstraps and claims: no waits form a circle, and while a transaction is open the next step of some open one changes the state. The guards rule out the circle of claim and revocation. |
| Governance.RaisedIsActive | internal/governance/setup.go:114-159 | When a bootstrap or claim commits, the active administrators are exactly the raised account, if accepted. |
| Governance.RaiseCanLockOut | internal/governance/bootstrap.go:96-120 | A schedule in which raising an account that is not accepted closes both bootstrap and claim with nobody active. |
| Locks.LocksAreExclusive | internal/administration/account.go:458-475 | In every run of transactions that keep their locks until they close, no lock has two holders. |
| Locks.NoDeadlock | internal/administration/account.go:580-612 | Where in one strict order everyone holds only locks before the one it wants, no wait-for cycle exists. |
| Locks.Progress | internal/administration/account.go:580-612 | And while a transaction is open, some open one can take its next lock or commit. |
| Locks.EveryoneCanCommit | internal/administration/account.go:580-612 | From every state of ordered programs some schedule without aborts closes all, in exactly as many steps as requests and commits remain. |
| Locks.ReachesExactly | internal/administration/account.go:458-475 | Any number of transactions and any path of waits: some run reaches these waits if and only if prefixes of the programs without a common lock make them. |
| Locks.SafeExactly | internal/administration/account.go:458-475 | In every state of every run locks are exclusive, no waits form a circle and some open transaction can go on, if and only if no such prefixes make a circle. |
| Locks.TwoDeadlockExactly | internal/administration/account.go:458-475 | Two transactions can come to wait for each other if and only if after prefixes of their programs without a common lock each wants a lock the other holds. |
| LockOrder.ProgramsAscend | internal/administration/completion.go:303-343 | Of the fifteen operations exactly the completion of an email test and the claim do not request their locks in the global order, session and identity rows included. |
| LockOrder.LockAdministrationUsers | internal/administration/account.go:580-612 | The two rows come back as actor and target, requested in ascending order and once when equal; a missing row stops the requests with the error of whoever is missing. |
| LockOrder.AdministrationIsDeadlockFree | internal/administration/completion.go:405-430 | Any mix of any number of the fifteen operations, on locks alone or with the guards that keep claims and revocations apart: exclusive locks, no circle of waits and some open transaction able to go on in every state of every run, if and only if nobody reserves a test for an administrator whose test completes, nobody (on locks alone) revokes the sessions of a claiming user, and no ring of accepted completion, chain of two-user operations, control update and SMTP update exists. |
| LockOrder.TwoDeadlockExactly | internal/administration/email.go:119-194 | Two operations can come to wait for each other if and only if one completes a test and the other reserves one for the same administrator, or, the test being accepted, updates the SMTP settings or opens registration as that administrator; or one claims for a user whose sessions the other revokes. |
| LockOrder.ThreeCanDeadlock | internal/administration/email.go:119-194 | A run in which a completion, the same administrator's site update and another's SMTP update wait in a circle, though no two of them can wait for each other. |
| LockOrder.CompletionCanDeadlock | internal/administration/email.go:173-194 | A run in which one administrator's test completion and SMTP update wait for each other. |
| Rebind.LockIdentities | internal/governance/rebind.go:76-96 | The swap and the loop request the keys of both identities, in an order that does not depend on which is old and which is new. |
| Rebind.RebindsAreDeadlockFree | internal/governance/rebind.go:76-97 | Any number of rebinds and logins over identities whose keys do not collide: exclusive locks, no circle of waits, and some open one can go on. |
| Rebind.DeadlockFreeExactly | internal/governance/rebind.go:76-97 | For any hash and any number of operations: the same three, if and only if no circle of operations leads from each one's second key to the next one's first. |
| Rebind.TwoDeadlockExactly | internal/governance/rebind.go:76-97 | For any hash, two operations can come to wait for each other if and only if their keys are the same two in opposite orders. |
| Rebind.CrossingCollides | internal/governance/rebind.go:76-97 | Opposite orders mean that two different identities, one of each operation, share a key. |
| Rebind.CollisionsCanCross | internal/governance/rebind.go:76-97 | A hash and two rebinds without a common identity whose keys are in opposite orders. |
| SessionIdle.SessionRow.Authenticate | internal/auth/session_authentication.go:133-187 | The answer and the whole stored row after it, malformed group lists included. |
| SessionIdle.LagIsSmall | internal/auth/session_authentication.go:136-187 | After an authentication the stored last use is never ahead and lags by less than the touch interval. |
| SessionIdle.NeverAhead | internal/auth/session_authentication.go:172-187 | Over any run the stored last use is never ahead of real use. |
| SessionIdle.UsedSessionLives | internal/auth/session_authentication.go:133-187 | A session used at gaps of at most the idle timeout less the touch interval is authenticated every time until it expires. |
| SessionIdle.LongerGapsCanFail | internal/auth/session_authentication.go:120-147 | The threshold is exact on the clock's microseconds: with a gap one microsecond longer a session in use is turned away, for every setting. |
| SessionIdle.UnusedSessionDies | internal/auth/session_authentication.go:136-147 | A session unused for the idle timeout is turned away, whatever its history. |
| SessionIdle.ConcurrentUse | internal/auth/session_authentication.go:123-187 | In any interleaving of loads, touches and revocations, a request in time is not turned away as idle; it is an error exactly when a later clock reading overtook it. |

## Left out

- LockOrder.AdministrationIsDeadlockFree: with the guards, a revocation whose check is bound to fail counts as closed once it holds its user rows; that the check does fail beside a claim holding session rows is `Governance.GuardsExclude`. The session rows of a user count as one lock. Locks that foreign keys of an insert take are modelled only for the audit row of an email-test completion, where they change the order; other audit rows reference a user already locked. Session rotation and touching, login and the statements of publishing and moderation lock rows too and are not part of this model.
- Overtaking.MultipleExactly: for stalls that leave a window so short that more than 65,536 of them touch an interval, the greatest table cannot hold a client for each, and the bound is not claimed to be attained.
- Rebind.RebindsAreDeadlockFree: covers the advisory locks; the rows a rebind or a login writes after them are not part of this model.
- Governance.AdministrationContinues: suspension, muting and acceptance of an account are fixed over a run, since the code that changes them is not part of this model.
- Governance.OneRaise: the identity row and the validity of the session that the claim's statement also checks are its failing at any step.
- Publication.PublishedWithinAnyWindow: a run under policies of different window lengths has no common window; limits and new-account periods may vary freely.
- SessionIdle.UsedSessionLives: idle timeout and revalidation interval are fixed over a run.
- Paging.FollowingShowsEverything: the visible set is fixed while the reader follows the cursors, and each request comes within the cursor's age limit, while a key that issues is active and the key before it is known.
- RegistrationGate.OpenMeansVerified: the remote email stage and the five-minute limit between tests are choices of the schedule, that is, any step may fail.
- Rules.Check: parsing a reference into components, parsing an address and the IDNA mapping are parameters, any functions.
- Cursor.RoundTrip: the authentication code is any function to 32 bytes; nothing is claimed about forging.
- RequestLimiter.AllowedWithinAnyWindow: readings out of lock order are the subject of `Admission` and `Overtaking`. Counts are by client digest, any function of key and address.
- Durations near the ends of Go's time range, where subtraction saturates.
- Browser events of the toolbar, and a text that is no string.
- HTTP handlers, templates, cookies, configuration, start-up and message delivery.
- Opening the rules file, its size limit and its UTF-8 check.
- Account, group and area lists: the same keyset paging as recent activity with fewer checks.
- Search and direct post queries: single bounded queries without state.
- Columns of joined rows that are only validated: one flag of a row stands for them.
- Transaction timeouts: an abort at any step stands for them.
- Digests in audit rows and the password envelope.
