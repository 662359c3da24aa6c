# Portfolio page: the behaviour behind the markup

A Dafny model of the logic inside `src/OlhaPortfolioPage.tsx`, the single React page of a marketing
portfolio site. Almost all of the page is markup and styling. The parts that compute something are
these:

- **the asset-path resolver** `getAssetPath`, which puts every image and video path under the
  deployment base URL (`AssetPath`);
- **the responsive page size** `getItemsPerSlide`, which gives 3, 2 or 1 items per slide from the
  window width (`PageSize`);
- **the photo/video carousel** `PhotoVideoExamples`. It holds an index and a page size over nine
  examples. It has wrap-around arrows, a clamped visible window and one indicator dot per page
  (`Pager` for the arithmetic, `PhotoVideo` for the stateful component);
- **the before/after pair slider** in `ClientHighlights`. It uses the same arithmetic with step 1
  over three pairs (`ClientHighlights`);
- **the mobile menu** in `Nav`. It has an open flag and a scroll lock that is held exactly while the
  menu is open and released on teardown (`Nav`);
- **the service selection** in `Services`. A card click selects a title, the "Content Creation"
  card navigates instead, and both close buttons clear the selection (`Services`);
- **the marquee word list** in `MarqueeBand`: split at `" / "`, drop blank pieces, repeat four
  times (`Marquee`).

Three inputs from the environment become parameters:

- the bundler's `BASE_URL` becomes an `Option<string>`;
- `window.innerWidth` becomes an `Option<int>`, with `None` meaning there is no window;
- `document.body.style.overflow` becomes the boolean field `NavMenu.scrollLocked`.

JavaScript's `%` truncates toward zero, while Dafny's is Euclidean, so `Js.Rem` models JavaScript's
remainder explicitly. `Js.Slice` models `Array.prototype.slice`, including negative start indices.
Each stateful component is a class whose `var` fields are the component's `useState` cells.
`NavMenu` also has the scroll lock (`scrollLocked`) and a `mounted` flag, so that the cleanup on
unmount can be stated. The methods are the event handlers. The arrow and dot handlers give the new
index through `Pager`, and `Resize` gives the new page size through `PageSize`; the lemmas about
those functions carry the properties. The `Nav` and `Services` handlers state their new state
directly. Read-only methods (`VisibleItems`,
`Indicators`, `Current`, `DialogShown`) stand for what the component renders from its state.

Four behaviours of the code are worth knowing:

- a dot jumps to `i * itemsPerSlide` with no modulo, and only the dots that are rendered can be
  clicked;
- an empty list is not handled by the code (`x % 0` is `NaN`), so it is not modelled;
- clicking the selected service card again does not close the dialog: clicks only select, and the
  close buttons only clear;
- the resolver avoids a doubled `/` at the join only when the path does not itself start with
  `"//"` (`AssetPath.DoubledSlashKept`).

## Model

| member | source | states |
|---|---|---|
| `AssetPath.BaseOrRoot` | src/OlhaPortfolioPage.tsx:11 | an absent or empty base becomes `"/"`; any other base is kept; the result is never empty |
| `AssetPath.NormalizeBase` | src/OlhaPortfolioPage.tsx:13 | the result ends in `/`, starts with the base and is at most one character longer; a base already ending in `/` is unchanged |
| `AssetPath.CleanPath` | src/OlhaPortfolioPage.tsx:15 | exactly one leading `/` is removed when present (`path == "/" + result`); otherwise the path is kept whole |
| `AssetPath.EffectiveBase` | src/OlhaPortfolioPage.tsx:11-13 | the base that is actually prefixed always ends in `/` |
| `AssetPath.GetAssetPath` | src/OlhaPortfolioPage.tsx:8-18 | the URL starts with the effective base, and what follows the base is the path with one leading `/` removed (no encoding) |
| `AssetPath.NormalizeBaseIdempotent` | src/OlhaPortfolioPage.tsx:13 | normalising an already normalised base changes nothing |
| `AssetPath.TrailingSlashIrrelevant` | src/OlhaPortfolioPage.tsx:11-17 | a base without a trailing `/` resolves every path exactly as the same base with it (`"/base"` and `"/base/"`) |
| `AssetPath.NoSlashAtJoin` | src/OlhaPortfolioPage.tsx:13-17 | unless the path starts with `"//"`, the character right after the base is not `/` |
| `AssetPath.DoubledSlashKept` | src/OlhaPortfolioPage.tsx:15-17 | only one slash is removed: under base `"/"`, `"//x"` resolves to `"//x"` |
| `AssetPath.DistinctAssetsDistinctUrls` | src/OlhaPortfolioPage.tsx:15-17 | for a fixed base, two paths that start with `/` give the same URL only if they are equal |
| `AssetPath.LeadingSlashOptional` | src/OlhaPortfolioPage.tsx:15 | `"a/b.jpg"` and `"/a/b.jpg"` resolve to the same URL |
| `AssetPath.SubPathBaseExamples` | src/OlhaPortfolioPage.tsx:8-17 | `"/a/b.jpg"` under `"/base"` and under `"/base/"` is `"/base/a/b.jpg"` |
| `AssetPath.RootBaseExamples` | src/OlhaPortfolioPage.tsx:11-17 | under the root base (`"/"` as in vite.config.ts, empty, or absent) paths resolve to `"/"` + the path without its slash |
| `AssetPath.NoEncodingExample` | src/OlhaPortfolioPage.tsx:15-17 | spaces and `%20` pass through verbatim |
| `Js.Rem` | src/OlhaPortfolioPage.tsx:705 | JavaScript's `%`: magnitude below the divisor, sign of the dividend, and the difference from the dividend is a multiple of the divisor |
| `Js.RemUnique` | src/OlhaPortfolioPage.tsx:705 | those remainder conditions determine the value uniquely |
| `Js.RemIsModOnNaturals` | src/OlhaPortfolioPage.tsx:705 | on a non-negative dividend JavaScript's `%` equals the Euclidean remainder |
| `Js.RemOfNegativeDividend` | src/OlhaPortfolioPage.tsx:709 | on a negative dividend they differ: `-1 % 9` is `-1` in JavaScript and `8` in Euclidean arithmetic |
| `Js.SliceBound` | src/OlhaPortfolioPage.tsx:732 | `slice` clamps a relative index to `[0, len]`, counting a negative index back from the end |
| `Js.Slice` | src/OlhaPortfolioPage.tsx:732 | for `0 <= start <= end`, `slice` returns the elements from `start` up to `min(end, len)` |
| `PageSize.ItemsPerSlide` | src/OlhaPortfolioPage.tsx:684-691 | the result is in 1..3; it is 3 iff the width is at least 768 or there is no window, and 1 iff the width is below 640 |
| `PageSize.ItemsPerSlideMonotone` | src/OlhaPortfolioPage.tsx:686-688 | a wider window never gives fewer items per slide |
| `PageSize.InitialIsNoWindowDefault` | src/OlhaPortfolioPage.tsx:690-693 | the initial state 3 equals the no-window default, and no width gives more |
| `PageSize.BreakpointExamples` | src/OlhaPortfolioPage.tsx:686-688 | the widths 1024, 768, 767, 700, 640, 639 and 400 give 3, 3, 2, 2, 2, 1 and 1 |
| `Pager.Next` | src/OlhaPortfolioPage.tsx:704-706 | on non-negative index and step, the next index is in `[0, n)` and equals `(i + k) mod n` |
| `Pager.Prev` | src/OlhaPortfolioPage.tsx:708-710 | when the step is at most `n`, the previous index is in `[0, n)`: `i - k` if that is non-negative, else `i - k + n` |
| `Pager.PrevUndoesNext` | src/OlhaPortfolioPage.tsx:704-710 | on valid indices with `0 <= k <= n`, back after forward is the identity |
| `Pager.NextUndoesPrev` | src/OlhaPortfolioPage.tsx:704-710 | and forward after back is the identity |
| `Pager.NextTimesIsMod` | src/OlhaPortfolioPage.tsx:704-706 | `m` forward presses from `i` land on `(i + m*k) mod n` |
| `Pager.FullLapReturns` | src/OlhaPortfolioPage.tsx:704-706 | when `pages * k == n`, `pages` forward presses return to the start (9 items at 3 per slide: 3 presses) |
| `Pager.Window` | src/OlhaPortfolioPage.tsx:732 | the visible window is the contiguous run `items[i .. min(i+k, n)]`, of length `min(k, n-i)`; it never wraps |
| `Pager.PageCount` | src/OlhaPortfolioPage.tsx:798 | the dot count `c = ceil(n/k)`: `c*k >= n` and `(c-1)*k < n` |
| `Pager.Dots` | src/OlhaPortfolioPage.tsx:798-804 | one dot per page; dot `p` is lit iff the index equals `p*k` |
| `Pager.JumpTargetInRange` | src/OlhaPortfolioPage.tsx:798-801 | every dot's jump target `p*k` is a valid index `< n` |
| `Pager.IsActive` | src/OlhaPortfolioPage.tsx:803 | dot `p` is active when the index equals `p * itemsPerSlide` |
| `Pager.AtMostOneActive` | src/OlhaPortfolioPage.tsx:803 | two lit dots are the same dot |
| `Pager.AlignedIndexHasActiveDot` | src/OlhaPortfolioPage.tsx:798-803 | a page-aligned index lights the dot of its page, which is among the dots shown |
| `Pager.UnalignedIndexHasNoActiveDot` | src/OlhaPortfolioPage.tsx:803 | an index that is not page-aligned (after a resize) lights no dot |
| `Pager.ActiveDotCount` | src/OlhaPortfolioPage.tsx:798-804 | on a valid index exactly one dot is lit if the index is page-aligned, otherwise none |
| `Pager.NineByThreeSteps` | src/OlhaPortfolioPage.tsx:704-710 | with 9 items at 3 per slide, forward goes 0→3→6→0 and back from 0 gives 6 |
| `Pager.NineItemsPageCounts` | src/OlhaPortfolioPage.tsx:798 | 9 items give 3, 5 and 9 dots at 3, 2 and 1 per slide |
| `Pager.TailWindowExample` | src/OlhaPortfolioPage.tsx:732 | at index 7 with 3 per slide the window is items 7 and 8 only |
| `Pager.ShortListGoesNegative` | src/OlhaPortfolioPage.tsx:708-710 | with fewer items than a page the index can go negative (`-1` for 2 items at 3 per slide), and `slice` then counts from the end |
| `PhotoVideo.Media` | src/OlhaPortfolioPage.tsx:672-682 | every example's source starts with the effective base |
| `PhotoVideo.Examples` | src/OlhaPortfolioPage.tsx:672-682 | the carousel's list has nine entries |
| `PhotoVideo.Carousel.constructor` | src/OlhaPortfolioPage.tsx:670-693 | mounting starts at index 0 with 3 items per slide |
| `PhotoVideo.Carousel.Resize` | src/OlhaPortfolioPage.tsx:695-699 | a measurement replaces the page size with `ItemsPerSlide(width)` and leaves the index unchanged |
| `PhotoVideo.Carousel.NextSlide` | src/OlhaPortfolioPage.tsx:704-706 | the index becomes `Pager.Next` of the old index and stays valid; the page size is unchanged |
| `PhotoVideo.Carousel.PrevSlide` | src/OlhaPortfolioPage.tsx:708-710 | the index becomes `Pager.Prev` of the old index and stays valid; the page size is unchanged |
| `PhotoVideo.Carousel.SelectDot` | src/OlhaPortfolioPage.tsx:798-801 | clicking a shown dot `p` sets the index to `p * itemsPerSlide`, a valid index, and lights dot `p` |
| `PhotoVideo.Carousel.VisibleItems` | src/OlhaPortfolioPage.tsx:732 | the slide shows between 1 and `itemsPerSlide` examples: the run starting at the index, cut off at the end |
| `PhotoVideo.Carousel.Indicators` | src/OlhaPortfolioPage.tsx:797-806 | there are `ceil(n / itemsPerSlide)` dots; dot `p` is lit iff `currentIndex == p * itemsPerSlide`; exactly one is lit iff the index is page-aligned |
| `PhotoVideo.MountPageCarousel` | src/OlhaPortfolioPage.tsx:669-693 | the page's carousel holds its own nine examples at index 0 and 3 per slide |
| `ClientHighlights.Pair` | src/OlhaPortfolioPage.tsx:850-854 | both images of a pair resolve under the effective base |
| `ClientHighlights.BeforeAfterPairs` | src/OlhaPortfolioPage.tsx:850-854 | there are three pairs |
| `ClientHighlights.PairSlider.constructor` | src/OlhaPortfolioPage.tsx:857 | the slider starts at pair 0 |
| `ClientHighlights.PairSlider.NextPair` | src/OlhaPortfolioPage.tsx:859-861 | the index becomes `Pager.Next(i, 1, n)` and stays in `[0, n)` |
| `ClientHighlights.PairSlider.PrevPair` | src/OlhaPortfolioPage.tsx:863-865 | the index becomes `Pager.Prev(i, 1, n)` and stays in `[0, n)` |
| `ClientHighlights.PairSlider.SelectPair` | src/OlhaPortfolioPage.tsx:931 | clicking dot `i` shows pair `i` |
| `ClientHighlights.PairSlider.Current` | src/OlhaPortfolioPage.tsx:903-908 | the images shown are those of the pair the index names |
| `ClientHighlights.PairSlider.Indicators` | src/OlhaPortfolioPage.tsx:928-935 | one dot per pair; the current pair's dot is lit and it is the only one |
| `ClientHighlights.ThreeNextPairsReturn` | src/OlhaPortfolioPage.tsx:859-861 | with three pairs, three forward presses return to the pair shown |
| `ClientHighlights.PairArrowsInverse` | src/OlhaPortfolioPage.tsx:859-865 | the two pair arrows undo each other on every pair |
| `ClientHighlights.ThreePairSteps` | src/OlhaPortfolioPage.tsx:859-865 | with three pairs, back from the first shows the last, and forward from the last shows the first |
| `Nav.NavMenu.constructor` | src/OlhaPortfolioPage.tsx:74 | the menu mounts closed with scrolling free |
| `Nav.NavMenu.RunMenuEffect` | src/OlhaPortfolioPage.tsx:85-94 | a re-run of the effect (cleanup, then effect) leaves the lock held iff the menu is open |
| `Nav.NavMenu.ToggleMenu` | src/OlhaPortfolioPage.tsx:76-78 | the flag is negated, and afterwards the lock is held iff the menu is open |
| `Nav.NavMenu.CloseMenu` | src/OlhaPortfolioPage.tsx:80-82 | the menu is closed and the lock released, whatever the state before, so closing is idempotent |
| `Nav.NavMenu.Unmount` | src/OlhaPortfolioPage.tsx:91-93 | teardown releases the lock whatever the flag |
| `Services.ServiceSelection.constructor` | src/OlhaPortfolioPage.tsx:446 | nothing is selected initially |
| `Services.ServiceSelection.ClickCard` | src/OlhaPortfolioPage.tsx:470-476 | the "Content Creation" card navigates to `#photo-video-examples` and leaves the selection unchanged; every other card selects its own title; the selection is never "Content Creation" |
| `Services.ServiceSelection.Close` | src/OlhaPortfolioPage.tsx:505-506 | the close buttons clear the selection (the "Close" button at line 655 does the same) |
| `Services.Truthy` | src/OlhaPortfolioPage.tsx:502 | JavaScript truthiness of `selectedService`: `null` and `""` are falsy, every other title is truthy |
| `Services.ServiceSelection.DialogShown` | src/OlhaPortfolioPage.tsx:502 | the dialog is rendered exactly when a service is selected |
| `Services.TitlesNonEmpty` | src/OlhaPortfolioPage.tsx:448-458 | no card title is empty, so a selected title is never falsy |
| `Marquee.SplitFrom` | src/OlhaPortfolioPage.tsx:214 | the split scan always yields at least one piece (what it yields is pinned by `SplitRoundTrip` and `SplitPiecesAreLeftmost`) |
| `Marquee.Split` | src/OlhaPortfolioPage.tsx:214 | `split` always yields at least one piece (what it yields is pinned by `SplitRoundTrip` and `SplitPiecesAreLeftmost`) |
| `Marquee.SplitRoundTrip` | src/OlhaPortfolioPage.tsx:214 | joining the pieces with the separator gives the text back |
| `Marquee.SplitFromLeftmost` | src/OlhaPortfolioPage.tsx:214 | the scan cuts each piece at the first occurrence of the separator, given that the piece read so far holds no occurrence the scan has passed |
| `Marquee.SplitPiecesAreLeftmost` | src/OlhaPortfolioPage.tsx:214 | no piece of `split` contains the separator, and each cut is at the first occurrence after the previous cut |
| `Marquee.IsJsSpace` | src/OlhaPortfolioPage.tsx:214 | the ECMAScript WhiteSpace and LineTerminator code points that `trim()` removes |
| `Marquee.TrimStart` | src/OlhaPortfolioPage.tsx:214 | `trim()`'s removal of leading white space; what it leaves is stated by `TrimStartDropsLeadingSpace` |
| `Marquee.TrimEnd` | src/OlhaPortfolioPage.tsx:214 | `trim()`'s removal of trailing white space; what it leaves is stated by `TrimEndDropsTrailingSpace` |
| `Marquee.Trim` | src/OlhaPortfolioPage.tsx:214 | `word.trim()`; what it leaves is stated by `TrimDropsSurroundingSpace`, and when it is empty by `TrimEmptyIffBlank` |
| `Marquee.TrimStartDropsLeadingSpace` | src/OlhaPortfolioPage.tsx:214 | the result is the suffix of the word after its leading white space: everything dropped is white space, and the result does not start with white space |
| `Marquee.TrimEndDropsTrailingSpace` | src/OlhaPortfolioPage.tsx:214 | the result is the prefix of the word before its trailing white space: everything dropped is white space, and the result does not end with white space |
| `Marquee.TrimDropsSurroundingSpace` | src/OlhaPortfolioPage.tsx:214 | `word.trim()` is a run of the word with only white space around it, and it neither starts nor ends with white space |
| `Marquee.TrimEmptyIffBlank` | src/OlhaPortfolioPage.tsx:214 | `word.trim()` is empty iff every character of the word is ECMAScript white space |
| `Marquee.NonBlank` | src/OlhaPortfolioPage.tsx:214 | the filter keeps every occurrence of each non-blank piece and none of the blank ones (equal multiplicities, hence equal membership); blank means `trim()` is empty, by `TrimEmptyIffBlank` |
| `Marquee.NonBlankCons` | src/OlhaPortfolioPage.tsx:214 | the filter goes piece by piece: a leading piece is kept iff it is not blank, followed by the filtered rest |
| `Marquee.Repeat` | src/OlhaPortfolioPage.tsx:215 | four fills and `flat()` give `times * |words|` items, where item `j` is word `j mod |words|` |
| `Marquee.Words` | src/OlhaPortfolioPage.tsx:214 | a string is a word of the band iff it is a piece of the text split at `" / "` and is not blank |
| `Marquee.Items` | src/OlhaPortfolioPage.tsx:214-215 | the band has 4 × the word count items; item `j` is word `j mod count`; no item is blank |
| `Marquee.SplitWithEmptyPiece` | src/OlhaPortfolioPage.tsx:214 | `"A /  / B"` splits into `A`, an empty piece and `B` |
| `Marquee.EmptyPieceFiltered` | src/OlhaPortfolioPage.tsx:214 | for any two non-blank words `x` and `y`, the filter turns `[x, "", y]` into `[x, y]` |
| `Marquee.BlankPieceDropped` | src/OlhaPortfolioPage.tsx:214-215 | the empty piece is dropped: the words of `"A /  / B"` are `A` and `B`, and the band has eight items |

## Left out

- All JSX markup, Tailwind class strings, inline styles and framer-motion animation props. They carry no behaviour.
- The content of each service's dialog (lines 511-650). It is text and images chosen by title: presentation.
- Video play and pause, and showing or hiding the play icon (lines 311-325, 743-757). These are direct DOM calls.
- Registering and removing the resize listener (lines 700-701). `Carousel.Resize` models what the listener stores, not the subscription.
- Reading `import.meta.env.BASE_URL`. The base is a parameter of `GetAssetPath`.
- The browser navigation for the "Content Creation" card (line 472). `ClickCard` returns the target anchor instead of changing `window.location`.
- The footer's current-year read (line 973). It is a clock read.
- tailwind.config.js, which is theme data, and src/components/ui/button.tsx, which wraps a DOM button. From vite.config.ts only `base: '/'` is used, as an example base in `AssetPath.RootBaseExamples`.
- `MarqueeBand` renders the item list twice for a seamless loop (line 230). The second copy is presentation; `Marquee.Items` is the list itself.
- PhotoVideo.Carousel.constructor: requires at least three examples. That is one page at the widest layout, and the page has nine. With fewer items `prevSlide` produces a negative index (`Pager.ShortListGoesNegative`). With none, `%` yields `NaN`, which this model does not represent.
- Js.Rem: models JavaScript's `%` only for a positive divisor. Every divisor in this code is a list length.
- Pager.PageCount: models `Math.ceil(n / k)` as exact integer ceiling division. This is exact for the small integers involved; floating point is not modelled.
- Marquee.NonBlank: the contract states which pieces are kept and how many times each, but not that their order is preserved. The definition does keep the order, and `NonBlankCons` states it one piece at a time.
- Marquee.TrimStart, Marquee.TrimEnd, Marquee.Trim: each function's own contract is only a length bound. What each one leaves is stated by the lemmas `TrimStartDropsLeadingSpace`, `TrimEndDropsTrailingSpace` and `TrimDropsSurroundingSpace`, which keeps those facts out of every proof that merely mentions a trim.
- Marquee.Split: models `split` only for a non-empty string separator, as the page always passes `" / "`.
