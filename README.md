# Feed media downloader — a Dafny model of its core

The program opens a user's submissions feed in a browser and scrolls it. After
each scroll it collects the page's anchor links and keeps the `https://` links
that look like media. It hands each link it has not seen before to an external
downloader (`yt-dlp`) and adds up the sizes the downloader reports on its
standard output. A download that resolves with 1 GiB or more counted ends the
iteration and, with it, the walk. The loop also does not start another iteration
once 1 GiB has been counted, whatever the downloads' outcomes. The walk stops,
too, once the page height stops changing after a scroll.

The model has four modules:

- `Wrappers`: the `Option` type.
- `SizeParser`: the progress-size parser that reads one stdout chunk.
  - The regular expression `(\d+(?:\.\d+)?)([KMG]i?B)` is specified declaratively: `IsTokenAt` is a match, and `IsLeftmostToken` is the match a non-global `String.prototype.match` returns.
  - A scanner, `LeftmostToken`, is proved to find exactly that match.
  - The matched amount is an exact decimal. The unit scales it by 1024, 1024² or 1024³ for `KiB`, `MiB` and `GiB`, and not at all for `KB`, `MB` and `GB`.
- `LinkClassifier`: `isMediaLink`, a case-insensitive search for eleven signatures (hosts and file extensions).
  - It is proved to hold exactly when the ASCII-lower-cased URL contains one of the signatures.
- `FeedWalker`: the downloader adapter (`downloadFile`), the link harvest and the scroll/collect/download loop of `run`.
  - The browser is a finite sequence of `Page` observations. Each holds the anchor hrefs in document order and the scroll height read after that iteration's downloads.
  - The downloader is a function `fetch` from a URL to a `Download`: its stdout chunks in order, and its exit code.
  - `Pass` (one iteration's `for` loop) and `Walk` (the `while` loop) define the behaviour as functions of these inputs.
  - Class `Walker` holds the program's mutable state: `totalDownloaded`, `downloadedLinks` and `lastHeight`. Its methods run the same loops on that state and are proved to end in the state `Pass` and `Walk` give.
  - The lemmas about `Pass` and `Walk` carry the program's guarantees over to `Walker`:
    - a URL is dispatched at most once, and a failed link is never retried;
    - only secure media links from the pages are dispatched, in anchor order;
    - inside an iteration, only a resolved download at or over the cap takes the `break`; a rejected one lets the iteration go on;
    - the loop's own budget test ends the walk before any further iteration once the total is at or over the cap;
    - the walk ends on an unchanged height.

Where a reader might expect otherwise, the model follows the code:
- `KB`, `MB` and `GB` amounts are added unscaled. The cap is 1024³ bytes although the comment beside it calls it "1 GB".
- The unit part of the size pattern is case-sensitive. A chunk such as `12.0mib` reports nothing.
- Every stdout chunk that carries a size adds that size to the total again. The total therefore counts what the downloader prints, not what it writes to disk. A chunk that repeats the file's total size is counted once more each time it appears.

## Model

| member | source | states |
|---|---|---|
| SizeParser.LeftmostToken | server.js:19 | the match it returns lies inside the chunk; `LeftmostTokenSpec` states that it is the leftmost match, or none when there is none |
| SizeParser.Amount | server.js:22 | `parseFloat` of the matched digits, never negative; `MiBExample` and `KBExample` give concrete values |
| SizeParser.TokenBytes | server.js:21-25 | the bytes of a match are never negative; `TokenContribution` states the scaling per unit |
| SizeParser.ParseSize | server.js:19-27 | the size a chunk reports is never negative |
| SizeParser.ParseSizeFinds | server.js:19-20 | a chunk reports a size exactly when it contains a match of the size pattern |
| SizeParser.LeftmostTokenSpec | server.js:19 | the search fails exactly when there is no match, and otherwise returns a match that starts no later than any other |
| SizeParser.MatchAtSpec | server.js:19 | the matcher at a position returns a match exactly when one starts there, and returns that match |
| SizeParser.ScanFromSpec | server.js:19 | scanning from p returns the earliest match starting at or after p, or none when there is none |
| SizeParser.DigitRunEndSpec | server.js:19 | the integer part is a maximal run of decimal digits (greedy `\d+`) |
| SizeParser.UnitEndSpec | server.js:19 | a unit is found at j exactly when one of KB, KiB, MB, MiB, GB, GiB starts there, and it is the only one that does |
| SizeParser.TokenPositions | server.js:19 | in any match the digits and the optional fraction are as long as possible |
| SizeParser.TokenDeterminedByStart | server.js:19 | two matches that start at the same position are the same match |
| SizeParser.UnitShape | server.js:19 | the unit strings are exactly a letter K, M or G, an optional i, then B |
| SizeParser.Fraction | server.js:22 | the digits after the decimal point are worth at least 0 and less than 1 |
| SizeParser.LeftmostTokenBytes | server.js:19-27 | the chunk's size is the bytes of its leftmost match |
| SizeParser.TokenContribution | server.js:21-25 | the amount is multiplied by 1024 for KiB, 1024² for MiB and 1024³ for GiB, and added unchanged for KB, MB, GB |
| SizeParser.TokenCharacters | server.js:19 | inside a match the only upper-case B is its last character |
| SizeParser.NoSizeWithoutB | server.js:19-20 | a chunk without an upper-case B, lower-case units included, reports nothing |
| SizeParser.TokenInPrefix | server.js:19 | appending text to a chunk neither creates nor removes a match that ends inside it |
| SizeParser.AmountInPrefix | server.js:21-25 | a match that ends inside a chunk is worth the same bytes whatever follows |
| SizeParser.LeftmostInPrefix | server.js:19 | a chunk's leftmost match stays leftmost whatever text follows it |
| SizeParser.LeftmostOnly | server.js:19-27 | only the leftmost match counts: text after it never changes what a chunk reports |
| SizeParser.MiBExample | server.js:19-27 | "4.0MiB" reports 4194304 bytes and "4.5MiB" reports 4718592 |
| SizeParser.KBExample | server.js:21-25 | "750KB" reports 750 bytes: a decimal unit is not scaled |
| SizeParser.LowerCaseExample | server.js:19-20 | "12.0mib" reports nothing |
| LinkClassifier.LowerSpec | server.js:41 | lower-casing leaves no upper-case ASCII letter, maps each one to its lower-case partner, and keeps every other character |
| LinkClassifier.IsMediaLink | server.js:39-43 | no contract of its own; `MediaLinkMeaning` states its meaning and `CaseInsensitive` its case-insensitivity |
| LinkClassifier.MediaLinkMeaning | server.js:39-43 | a URL is a media link exactly when its lower-cased form contains one of the eleven signatures |
| LinkClassifier.SearchFromSpec | server.js:41 | the search from k succeeds exactly when a signature starts at some position at or after k |
| LinkClassifier.AnyMatchesAtSpec | server.js:41 | the alternatives at a position succeed exactly when one of them occurs there |
| LinkClassifier.MatchesAtSpec | server.js:41 | one alternative matches at k, ignoring case, exactly when it occurs at k in the lower-cased URL |
| LinkClassifier.MatchesFromSpec | server.js:41 | an alternative matches from its m-th character exactly when each later character agrees ignoring case |
| LinkClassifier.LowerIdempotent | server.js:41 | lower-casing twice is lower-casing once |
| LinkClassifier.CaseInsensitive | server.js:41 | a URL and its lower-cased form are classified alike |
| LinkClassifier.SignatureAnywhere | server.js:39-43 | a signature in any letter case anywhere in a URL makes it a media link |
| LinkClassifier.DotContext | server.js:41 | an occurrence of a signature that contains '.' sits on the string's only '.' |
| LinkClassifier.PageIsLowerCase | server.js:41 | the plain page URL is already lower case |
| LinkClassifier.PageHasNoSignature | server.js:41 | the plain page URL contains none of the signatures |
| LinkClassifier.PageIsNotMedia | server.js:39-43 | "https://example.com/page" is not a media link |
| LinkClassifier.MediaLinkExamples | server.js:39-43 | a v.redd.it URL and a URL with ".MP4" in upper case are media links |
| FeedWalker.Resolves | server.js:33-34 | no contract of its own; `PassAccounts` and `Walker.DownloadFile` use it as the outcome of a download: resolved exactly on exit code 0 |
| FeedWalker.IsSecure | server.js:65 | no contract of its own; `CandidateLinksMeaning` and `WalkDispatchesCandidates` state that only hrefs it accepts are dispatched |
| FeedWalker.CandidateLinks | server.js:62-68 | no contract of its own; `CandidateLinksMeaning` states its meaning |
| FeedWalker.NewLinks | server.js:71-73 | no contract of its own; `NewLinksMeaning` states its meaning |
| FeedWalker.Pass | server.js:71-81 | no contract of its own; `PassOrder`, `PassSeen`, `PassAccounts` and `PassBudget` together fix its result |
| FeedWalker.Walk | server.js:54-86 | no contract of its own; `WalkDispatchesOnce`, `WalkDispatchesCandidates`, `WalkAccounts`, `WalkStops` and `WalkStopsAfterBudget` state its meaning |
| FeedWalker.ChunkBytes | server.js:19-27 | a chunk adds a non-negative amount, and nothing when it reports no size |
| FeedWalker.ChunksBytes | server.js:18-27 | the chunks of one download never lower the total |
| FeedWalker.FilterSpec | server.js:62-68 | a filter keeps exactly the elements that satisfy the test, each as many times as it occurs, in their order |
| FeedWalker.SubsequenceTransitive | server.js:62-68 | a subsequence of a subsequence is a subsequence |
| FeedWalker.SubsequenceElems | server.js:62-68 | a subsequence's elements are elements of the whole |
| FeedWalker.CandidateLinksMeaning | server.js:62-68 | the candidates are exactly the hrefs that start with https:// and are media links, each as many times as it occurs among the anchors, in anchor order |
| FeedWalker.NewLinksMeaning | server.js:71-73 | the unseen links, each once, in the order of their first occurrences among the candidates |
| FeedWalker.NewLinksUnseen | server.js:72-73 | no link counted as new was seen before |
| FeedWalker.NewLinksOrder | server.js:71-73 | new links come in the order of their first occurrences among the candidates |
| FeedWalker.AccountsMonotone | server.js:27 | the recorded totals only grow along a trace |
| FeedWalker.AccountsAppend | server.js:27-81 | two byte-accounted traces that meet at a total join into one |
| FeedWalker.PassAccounts | server.js:27-81 | each dispatch's total is the previous total plus that download's reported bytes, and its outcome is its exit code's |
| FeedWalker.PassOrder | server.js:71-81 | the links dispatched are a prefix of the unseen candidates, and all of them unless the loop broke on the budget |
| FeedWalker.PassSeen | server.js:72-73 | the seen-set grows by exactly the links dispatched |
| FeedWalker.StopsOnlyAtEndAppend | server.js:76-77 | joining two traces keeps the capped, resolved dispatch last when nothing follows it |
| FeedWalker.PassBudget | server.js:74-79 | the loop breaks exactly when the last dispatch resolved at or over the cap, and no earlier dispatch did |
| FeedWalker.PassDispatchesNew | server.js:71-73 | in one iteration no link is dispatched twice and none that was seen before, and the links go out in the order of their first occurrences |
| FeedWalker.IterationFresh | server.js:71-73 | one iteration dispatches only links new to it, once each, and adds exactly them to the set |
| FeedWalker.FreshOnceAppend | server.js:71-73 | dispatches fresh against the set, followed by dispatches fresh against the grown set, are fresh against the first set |
| FeedWalker.WalkDispatchesOnce | server.js:71-79 | over the whole walk each URL is dispatched at most once, never one seen before, and a failed link is not retried |
| FeedWalker.NoDuplicatesAppend | server.js:72-73 | two duplicate-free sequences with no shared element join without duplicates |
| FeedWalker.OnLaterPage | server.js:62-65 | a link on a later page is on the pages seen by a longer walk |
| FeedWalker.IterationDispatchable | server.js:62-71 | one iteration dispatches only https media links from its own page |
| FeedWalker.DispatchableAppend | server.js:54-81 | dispatches of the first page followed by dispatches from the rest come from the pages walked |
| FeedWalker.WalkDispatchesCandidates | server.js:62-71 | every dispatched URL starts with https://, is a media link, and appears on one of the pages walked |
| FeedWalker.WalkAccounts | server.js:19-86 | the final total is the starting total plus every dispatched download's reported bytes, step by step |
| FeedWalker.WalkStopsAfterBudget | server.js:55-79 | a dispatch that resolved with the total at or over the cap is the last of the walk; only a rejected one may be followed by further dispatches |
| FeedWalker.WalkStops | server.js:54-85 | the walk stops on the budget with the total at the cap, or on a height equal to the one before with every earlier height different; lastHeight is the last height read; the walk starts from 0 |
| FeedWalker.CapEndsWalk | server.js:55-77 | an iteration that brings the total to the cap is the last one |
| FeedWalker.FirstZeroHeightEnds | server.js:54-84 | last height starts at 0, so a first page of height 0 ends the walk after one iteration |
| FeedWalker.FourMiBDownload | server.js:19-35 | a download printing "4.0MiB" and exiting 0 resolves and adds 4 MiB |
| FeedWalker.ScenarioLinks | server.js:62-68 | three secure media links are all candidates, in order |
| FeedWalker.ScenarioPass | server.js:71-81 | three fresh 4 MiB downloads with a 10 MiB cap are all dispatched, and the loop breaks after the third |
| FeedWalker.BudgetScenario | server.js:54-81 | with a 10 MiB cap, three 4 MiB media links are downloaded in anchor order, and the walk then stops on the budget after one iteration |
| FeedWalker.RejectedScenario | server.js:74-79 | a rejected download over the cap does not break the loop: the next link is still dispatched |
| FeedWalker.Walker.constructor | server.js:8-54 | the walker starts with nothing downloaded, nothing seen and last height 0 |
| FeedWalker.Walker.DownloadFile | server.js:11-35 | the total grows by the bytes of the download's chunks, and the call resolves exactly on exit code 0 |
| FeedWalker.Walker.DownloadPass | server.js:71-81 | the inner loop ends in the state and trace `Pass` gives |
| FeedWalker.Walker.Run | server.js:54-86 | the walk ends in the state, trace, iteration count and stop reason `Walk` gives |

## Left out

- Browser session: launching the browser, navigating, scrolling and the random 4-5 s pause are not modelled. Each iteration's hrefs and scroll height are given as a `Page`.
- Downloader process: the shell command and its output directory, the `--max-filesize 2G` flag, and `fs.ensureDir` are not modelled. What the process prints and its exit code are given as a `Download`.
- Process events: an exec `error` event, stdout data arriving after `exit`, and chunk boundaries that split a size token are not modelled. The chunks are given as they arrive.
- Hanging downloads: a downloader process that never exits is not modelled. The awaited promise would never settle, and the program would hang. Every `Download` in the model ends with an exit code or with none.
- Console output and the `toFixed(2)` formatting of progress messages are not modelled.
- Use of a rejected download: top-level error propagation (`run().catch`) and the text of the rejection are not modelled. `DownloadFile` returns whether the download resolved.
- Number representation: amounts and totals are exact reals. IEEE double rounding, and `parseFloat` on numbers too large for a double, are not modelled.
- Page horizon: the walk runs over a finite sequence of pages. Running out of them stops it with `OutOfObservations`, a reason the program does not have. Its unbounded scroll loop is therefore modelled only up to the pages given.
- Regular expressions: only the two patterns the program uses are modelled. Their leftmost-match and case-insensitive semantics are specified directly, not through a general regex engine.
- Case folding: `/i` is modelled as ASCII lower-casing. Every letter of the pattern is ASCII, so non-ASCII letters in a URL cannot match a signature under either folding.
