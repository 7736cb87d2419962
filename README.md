# Portfolio page: grid shimmer, preview popup and contact gates

This project models three pieces of logic from a Next.js portfolio site:

- **The grid-shimmer background.** This is the `GridShimmer` component, copied in
  `src/app/PortfolioClient.tsx` and `src/app/page.tsx`.
  - Each animation frame advances at most two "sweep passes": straight bands of colour that
    travel across a grid of square cells.
  - The frame spawns a successor while the current pass is still leaving, and retires passes
    that have left the viewport.
  - It then paints every cell. The cell's tint is the strength-weighted average of the pass
    colours. Its alpha is clamped and comes from the sweep, a pointer glow and a little noise.
  - The two copies differ only in their alpha constants and in how a frame decides whether
    to draw. One copy tests `document.visibilityState`; the other tests the `running` ref
    that its visibility listener keeps.
  - One engine, `Compositor.Config`, covers both copies: `PortfolioConfig` and `PageConfig`.
- **The preview popup of a project card** (`ProjectCard.updatePos`). It places a 468 px wide
  popup beside the card and flips it to the left when it would overflow the window.
- **The contact form.**
  - The client `onSubmit` trims the fields and checks the honeypot and then the required
    fields before posting.
  - The server route `POST` (`src/app/api/contact/route.ts`) checks the honeypot, then the
    missing fields, then composes one mail.
  - The mail's addresses fall back on defaults, and its HTML body escapes, with
    `escapeHtml`, everything the visitor wrote.

Modules, one per file:

- `JsMath`: `Math.min/max/abs/floor/ceil/round` and JavaScript's `%`.
- `Color`: `easeInOutCubic`, `lerp`, `hslToRgb`, `randomBlueYellowHue`.
- `Sweep`: the pass datatype and the declarative rules of one frame (`NextPasses`), with the
  lifecycle invariant `Lifecycle`: one or two passes, each with `hueT` in [0, 1] and hues in
  the palette.
- `Compositor`: grid geometry, the pass colour cache, sweep strength, the weighted tint, glow,
  noise and alpha, and the row/column loops that paint the grid.
- `Shimmer`:
  - the class `PointerRef` (the `pointer` ref and its handlers);
  - the reverse index loop that updates, pushes and splices the pass list, proved equal to
    `NextPasses`;
  - the class `GridShimmer`, whose `passes` and `last` fields each drawn frame updates.
- `Preview`: the class `ProjectCard` with `show` and `pos`.
- `HtmlEscape`: global `String.replace`, `escapeHtml`, and an `UnescapeHtml` used to state the
  round trip.
- `ContactRoute`: the `POST` decision, the addressing fallbacks and the mail template.
- `ContactForm`: `String.prototype.trim` and the client `onSubmit` decision.

Inputs the code takes from the platform are parameters:

- `Math.random()` draws and the pass direction `(cos angle, sin angle)` are a `Sweep.Draw`.
- `Math.hypot(w, h)` is `Viewport.diag`.
- `Math.exp` and `Math.sin` are the function fields of `Compositor.Numerics`. The only facts
  assumed about them are `0 < exp z <= 1` for `z <= 0` and `-1 <= sin z <= 1`.
- `performance.now()` and the rAF timestamp are `now`/`start`; `document.visibilityState` is
  `documentVisible`.
- The card's bounding rectangle is `Option<Rect>`; `None` stands for a null `cardRef`.
- `req.json()` is a `ContactRoute.Json`: unparsable JSON, `null`, an object, or any other value.
  `ContactRoute.ReadBody` turns it into the `Option<Body>` that `Post` takes. `None` stands for
  "`req.json()` rejects, or the body is JSON `null`". Any other value that is not an object reads
  as a body with four absent fields.
- Whether the mail transport accepted the mail is `delivered`.

## Model

| member | source | states |
|---|---|---|
| JsMath.Clamp | src/app/PortfolioClient.tsx:806 | `max(lo, min(hi, x))` lies in [lo, hi]. It is `x` inside the band, `lo` below it and `hi` above it. |
| JsMath.Min | src/app/PortfolioClient.tsx:705 | `Math.min` of two values is one of them and is at most both. |
| JsMath.Max | src/app/PortfolioClient.tsx:705 | `Math.max` of two values is one of them and is at least both. |
| JsMath.Abs | src/app/PortfolioClient.tsx:786 | `Math.abs` is `x` or `−x`, and never negative. |
| JsMath.Floor | src/app/PortfolioClient.tsx:705 | The result is the integer `r` with `r <= x < r + 1`. |
| JsMath.Ceil | src/app/PortfolioClient.tsx:708-709 | The result is the integer `r` with `r - 1 < x <= r`. |
| JsMath.Round | src/app/PortfolioClient.tsx:666 | `Math.round` rounds halves up: `x - 0.5 < r <= x + 0.5`. |
| JsMath.Trunc | src/app/PortfolioClient.tsx:664 | Truncation towards zero, which JavaScript's `%` uses, for both signs. |
| JsMath.RoundWithin | src/app/PortfolioClient.tsx:799-801 | Rounding keeps a value inside any band with integer ends. |
| Color.EaseInOutCubic | src/app/PortfolioClient.tsx:658 | Maps [0, 1] into [0, 1]. It stays below 1/2 on [0, 1/2) and reaches at least 1/2 from 1/2 on. |
| Color.EaseEndpoints | src/app/PortfolioClient.tsx:658 | f(0) = 0, f(1/2) = 1/2 and f(1) = 1. |
| Color.EaseMonotone | src/app/PortfolioClient.tsx:658 | The ease never decreases on [0, 1]. |
| Color.EaseSymmetric | src/app/PortfolioClient.tsx:658 | f(1 − t) = 1 − f(t): the two cubic halves are point-symmetric about (1/2, 1/2). |
| Color.Lerp | src/app/PortfolioClient.tsx:670 | `lerp(a, b, 0) = a`, `lerp(a, b, 1) = b`, and for t in [0, 1] the result lies between a and b. |
| Color.HslChannel | src/app/PortfolioClient.tsx:663-667 | Each channel `f(n)` is an integer in 0..255 for any hue when s and l are in [0, 1]. |
| Color.HslToRgb | src/app/PortfolioClient.tsx:661-669 | `[f(0), f(8), f(4)]` is in gamut. |
| Color.RandomBlueYellowHue | src/app/page.tsx:440-445 | Every draw is in the palette: [48, 60) when the coin is below 0.5, and [200, 235) otherwise. |
| Sweep.MinProj | src/app/PortfolioClient.tsx:676-677 | The minimum of the four corner projections is one of them, is at most each of them, and is never positive. |
| Sweep.MaxProj | src/app/PortfolioClient.tsx:733-735 | The maximum of the four corner projections is one of them, is at least each of them, and is never negative. |
| Sweep.ExitedIsOverlapping | src/app/PortfolioClient.tsx:737-742 | The spawn threshold is `speed · 1.5 >= 0` below the exit line, so every exited pass has also passed the spawn threshold. |
| Sweep.Exited | src/app/PortfolioClient.tsx:741 | The retire test: the position is beyond `maxProj + margin` for the pass's own direction. |
| Sweep.Overlapping | src/app/PortfolioClient.tsx:737 | The position part of the spawn test: beyond `maxProj + margin − speed · 1.5`. |
| Sweep.After | src/app/PortfolioClient.tsx:728-729 | One frame moves `pos` by `speed · dt`. `hueT` never exceeds 1, never decreases for `dt >= 0`, and is below 1 exactly when `hueT + dt / 0.6` is, and then equals it; otherwise it is exactly 1. The direction and hues are kept. |
| Sweep.AfterComposes | src/app/PortfolioClient.tsx:728-729 | Two frames of d1 and d2 seconds equal one frame of d1 + d2. |
| Sweep.InitialPass | src/app/PortfolioClient.tsx:681-687 | The initial pass is at −∞ with `hueT = 1`, and both its hues are in the palette. |
| Sweep.Spawn | src/app/PortfolioClient.tsx:672-679 | A spawned pass takes the drawn direction, starts at `minProj − margin <= −margin` with `hueT = 0`, has both hues in the palette, and has not exited. |
| Sweep.Advanced | src/app/PortfolioClient.tsx:726-729 | Every pass is advanced by one frame, in order. |
| Sweep.Survivors | src/app/PortfolioClient.tsx:741-743 | A pass is kept exactly when it has not exited. The result is empty exactly when every pass has exited. `SurvivorsSingle` and `SurvivorsAppend` state that kept passes keep their order and multiplicity. |
| Sweep.SurvivorsSingle | src/app/PortfolioClient.tsx:741-743 | A lone pass is kept exactly when it has not exited. |
| Sweep.SurvivorsAppend | src/app/PortfolioClient.tsx:741-743 | The filter distributes over concatenation, so the kept passes stay in their order with their multiplicity. |
| Sweep.NextPasses | src/app/PortfolioClient.tsx:725-744 | The pass list after one frame: the advanced passes that have not exited, in order, then the one spawn when `SpawnDue`. `Shimmer.AdvancePasses` proves the reverse loop computes it, and `CountStaysOneOrTwo`, `NothingPastExitLine`, `NextPassesOrigin`, `FrameKeepsLifecycle` and `LonePassSpawnsOnThreshold` state its properties. |
| Sweep.ResolveFirst | src/app/PortfolioClient.tsx:716-723 | A lone pass at −∞ moves to `minProj − margin` for its direction. Any other list is unchanged. |
| Sweep.ResolvedStartsBeforeViewport | src/app/PortfolioClient.tsx:716-723 | The lazily placed initial pass is finite, at most `−margin`, and keeps its `hueT`. |
| Sweep.CountStaysOneOrTwo | src/app/PortfolioClient.tsx:725-744 | From one or two passes, a frame leaves one or two passes. |
| Sweep.NothingPastExitLine | src/app/PortfolioClient.tsx:741-743 | After a frame, no pass is past its own exit line. |
| Sweep.NextPassesOrigin | src/app/PortfolioClient.tsx:737-740 | Every pass after a frame is the spawned pass or an advanced old pass. The list starts with exactly the advanced survivors, in order, and has at most one more pass, which is the spawn: at most one spawn per frame. |
| Sweep.ResolvedPassesOk | src/app/PortfolioClient.tsx:716-723 | After the lazy placement, every pass is finite and keeps its invariant. |
| Sweep.AdvancedPassesOk | src/app/PortfolioClient.tsx:728-729 | Advancing keeps every pass finite and within its invariant. |
| Sweep.FrameKeepsLifecycle | src/app/PortfolioClient.tsx:716-744 | A frame keeps the lifecycle invariant (one or two passes, `hueT` in [0, 1], hues in the palette), and leaves no pass at −∞. |
| Sweep.LonePassSpawnsOnThreshold | src/app/PortfolioClient.tsx:737-740 | A lone pass gets its successor in the frame where it passes the spawn threshold, and only then. |
| Sweep.NoSpawnWhileNewerSurvives | src/app/PortfolioClient.tsx:737 | While the newer of two passes survives, no pass is spawned. |
| Compositor.ShippedConfigsOk | src/app/PortfolioClient.tsx:806 | Both shipped copies have a well-formed clamp band and a non-negative tint scale. |
| Compositor.CellSize | src/app/PortfolioClient.tsx:703-705 | The cell size lies in [20·cb, 42·cb]. It equals `floor(min(w, h) / 22)` whenever that value is inside the band, `20·cb` when it is below and `42·cb` when it is above. |
| Compositor.CoarseBoost | src/app/PortfolioClient.tsx:704 | The boost is 1.5 on a coarse pointer and 1 otherwise, so it never shrinks the cells. |
| Compositor.GridCount | src/app/PortfolioClient.tsx:708-709 | `Math.ceil(extent / cell)` is never negative. `GridCountCovers` states that it covers the extent with the fewest cells. |
| Compositor.GridCountCovers | src/app/PortfolioClient.tsx:708-709 | `cols · cell >= w`, and one column fewer would not cover w. The same holds for rows and h. |
| Compositor.GeometryOf | src/app/PortfolioClient.tsx:703-749 | The cell is in its band, and cols and rows are the covering counts. Also `speed = 0.09 · diag`, `margin = 4 · cell`, `band = max(6 · cell, 0.3 · diag) > 0` and `sigma = min(35, 0.8 · cell) > 0`. |
| Compositor.HueColor | src/app/PortfolioClient.tsx:753-754 | The colour of a hue is in gamut. |
| Compositor.BlendChannel | src/app/PortfolioClient.tsx:759-761 | The rounded blend is the first channel at t = 0, the second at t = 1, and between the two otherwise. |
| Compositor.CachePass | src/app/PortfolioClient.tsx:751-766 | A cache entry keeps the position and direction, and its `mixT` is the eased `hueT` in [0, 1]. Its colour is in gamut, each channel lies between the two hue colours, and the colour is the "to" hue once `hueT = 1`. |
| Compositor.PassCache | src/app/PortfolioClient.tsx:751 | One cache entry per pass, in order. |
| Compositor.Crest | src/app/PortfolioClient.tsx:787 | The crest is in [0, 1]. It is 0 exactly from one band width away, and 1 on the line. |
| Compositor.Strength | src/app/PortfolioClient.tsx:785-788 | `crest² · mixT` is in [0, 1] and at most `mixT`. It is 0 for a pass at −∞ or with `mixT = 0`. |
| Compositor.CrestSquared | src/app/PortfolioClient.tsx:788 | `c² · m` lies in [0, m], and is 0 when m is. |
| Compositor.Weight | src/app/PortfolioClient.tsx:789-794 | A pass adds a positive weight exactly when it contributes (strength > 0.0001), and nothing otherwise. |
| Compositor.Weights | src/app/PortfolioClient.tsx:784 | One weight per cached pass, in order. |
| Compositor.TotalPositiveIff | src/app/PortfolioClient.tsx:790 | A sum of non-negative weights is non-negative, and positive exactly when some weight is. |
| Compositor.WeightedSumZero | src/app/PortfolioClient.tsx:791-793 | With every weight 0, every accumulator is 0. |
| Compositor.SumsPositiveIffContribution | src/app/PortfolioClient.tsx:783-798 | `sTotal >= 0`, and `sTotal > 0` exactly when some pass contributes. With no contribution, all four accumulators are 0. |
| Compositor.WeightedSumLower | src/app/PortfolioClient.tsx:790-793 | If every weighted value is at least lo, the accumulator is at least `lo · sTotal`. |
| Compositor.WeightedSumUpper | src/app/PortfolioClient.tsx:790-793 | If every weighted value is at most hi, the accumulator is at most `hi · sTotal`. |
| Compositor.AverageLower | src/app/PortfolioClient.tsx:799-801 | A positive-weight average of values at least lo is at least lo. |
| Compositor.AverageUpper | src/app/PortfolioClient.tsx:799-801 | A positive-weight average of values at most hi is at most hi. |
| Compositor.RoundedAverageWithin | src/app/PortfolioClient.tsx:799-801 | The rounded average of integer channels in [lo, hi] stays in [lo, hi]. |
| Compositor.TintWithin | src/app/page.tsx:600-606 | When some pass contributes, each tint channel lies between the smallest and largest value of that channel among the contributing passes. |
| Compositor.Tint | src/app/PortfolioClient.tsx:797-802 | White when `sTotal` is 0, otherwise each channel's rounded weighted average. `TintWithin` and `TintWhiteWithoutContribution` state its bounds and its fallback. |
| Compositor.TintWhiteWithoutContribution | src/app/page.tsx:600-606 | `sTotal` is 0 exactly when no pass contributes, and then the tint is white (255, 255, 255). |
| Compositor.AccumulateSweeps | src/app/PortfolioClient.tsx:783-795 | The accumulation loop over the cache computes exactly the specified sums, with `sTotal >= 0`. |
| Compositor.SweepSums | src/app/PortfolioClient.tsx:783-795 | The four accumulators of a cell: the weight total and the weighted channel sums, over the same per-pass weights. `SumsPositiveIffContribution` and `AccumulateSweeps` state their properties. |
| Compositor.Glow | src/app/PortfolioClient.tsx:775-781 | Glow is exactly 0 when the pointer is inactive or reduced motion is on, and in (0, 1] otherwise. |
| Compositor.GaussExponentNonpositive | src/app/PortfolioClient.tsx:780 | `2σ² > 0` and `−dist² / (2σ²) <= 0`. |
| Compositor.Dist2 | src/app/PortfolioClient.tsx:777-779 | The squared distance is non-negative. |
| Compositor.Noise | src/app/PortfolioClient.tsx:804 | Noise lies in [0, 0.04]. |
| Compositor.Alpha | src/app/PortfolioClient.tsx:805-808 | Whatever the sweep, glow and noise are, the alpha is clamped to [alphaMin, alphaMax] and then scaled, and it equals the scaled raw alpha inside the band, `alphaMin · scale` below it and `alphaMax · scale` above it. |
| Compositor.RawAlpha | src/app/PortfolioClient.tsx:805 | The alpha before the clamp: base, plus the sweep term capped at 1, plus the glow and noise terms, with the copy's weights. `Alpha` bounds what follows the clamp. |
| Compositor.ShippedAlphaBands | src/app/page.tsx:609-613 | The alpha lies in [0.03, 0.7]·0.55 in one copy and in [0.02, 0.65]·0.42 in the other. |
| Compositor.CellAlphaWithin | src/app/PortfolioClient.tsx:772-808 | Every cell's alpha lies in the configured band times the tint scale. |
| Compositor.CellWhiteWithoutContribution | src/app/PortfolioClient.tsx:797-802 | A cell that no pass reaches is painted white. |
| Compositor.CellWithoutPointer | src/app/PortfolioClient.tsx:775-781 | Without an active pointer, the glow term drops out of the cell's alpha. |
| Compositor.ShadeCell | src/app/PortfolioClient.tsx:772-808 | The column-loop body computes exactly the cell's specified fill. |
| Compositor.CellFill | src/app/PortfolioClient.tsx:772-808 | A cell's fill: the tint from its sweep sums and the alpha from sweep, glow and noise at its centre. `CellAlphaWithin`, `CellWhiteWithoutContribution` and `CellWithoutPointer` state its properties. |
| Compositor.Composite | src/app/PortfolioClient.tsx:770-815 | The row/column loops produce `rows` rows of `cols` cells, each with its specified fill. |
| Shimmer.PointerRef.constructor | src/app/PortfolioClient.tsx:587 | The pointer starts inactive at (−9999, −9999). |
| Shimmer.PointerRef.SetPointer | src/app/page.tsx:402-406 | A move sets the coordinates and marks the pointer active. |
| Shimmer.PointerRef.OnLeave | src/app/page.tsx:408 | Leaving marks the pointer inactive and parks it at (−9999, −9999). |
| Shimmer.PointerRef.OnTouch | src/app/page.tsx:409-413 | A touch event with no touch list, or an empty one, acts as leaving. Otherwise the first touch is followed. |
| Shimmer.FrameSeconds | src/app/PortfolioClient.tsx:695 | `dt = (now − last) / 1000` from 1 ms on, and exactly 0.001 below that: only the lower bound exists. |
| Shimmer.FrameDrawn | src/app/PortfolioClient.tsx:691 | One copy draws a frame when the document is visible, the other (src/app/page.tsx:486) when the `running` ref is set. `GridShimmer.DrawFrame` states what each case does. |
| Shimmer.IterationStep | src/app/PortfolioClient.tsx:726-743 | One visit of the reverse loop, as sequence algebra. It turns the invariant at i + 1 into the invariant at i. |
| Shimmer.SpawnTest | src/app/PortfolioClient.tsx:737 | The loop's spawn test holds exactly at index 0, when the frame is due to spawn. |
| Shimmer.AdvanceOne | src/app/PortfolioClient.tsx:727-743 | One loop iteration (advance, guarded push, guarded splice) keeps the loop invariant and sets `spawned` exactly when the frame spawns. |
| Shimmer.AdvancePasses | src/app/PortfolioClient.tsx:725-744 | The reverse loop with `push` and `splice` yields exactly `NextPasses`: the advanced survivors in order, then at most one new pass. |
| Shimmer.RenderFrame | src/app/PortfolioClient.tsx:698-815 | A drawn frame's pass list keeps the lifecycle invariant. The grid is painted from the new pass list. |
| Shimmer.GridShimmer.constructor | src/app/PortfolioClient.tsx:681-689 | On mount, the flags are read from the media queries, `running` is true, and there is one fully faded-in pass at −∞. The copy's constants must satisfy `ConfigOk`, which `Valid()` then keeps. |
| Shimmer.GridShimmer.OnReduce | src/app/PortfolioClient.tsx:591 | The reduced-motion listener sets `motionOK` and nothing else. |
| Shimmer.GridShimmer.OnCoarse | src/app/PortfolioClient.tsx:596 | The coarse-pointer listener sets `coarse` and nothing else. |
| Shimmer.GridShimmer.OnVisibility | src/app/page.tsx:376 | The visibility listener sets `running` and nothing else. |
| Shimmer.GridShimmer.DrawFrame | src/app/page.tsx:485-540 | A frame that is not drawn leaves `passes` and `last` unchanged. A drawn frame sets `last := now` and turns `passes` into `NextPasses` of the lazily placed list. It paints the grid from the new list and keeps the lifecycle invariant. |
| Preview.PreviewWidth | src/app/PortfolioClient.tsx:429-431 | `Math.round(260 · 1.8) = 468`. |
| Preview.ProjectCard.constructor | src/app/PortfolioClient.tsx:415-416 | The popup starts closed, at (0, 0). |
| Preview.ProjectCard.UpdatePos | src/app/PortfolioClient.tsx:435-448 | With no card, nothing changes. Otherwise `top = max(12, r.top − 8) >= 12`. `left = r.right + 16` when `r.right + 16 + 468 + 12 <= innerWidth`, and `left = max(12, r.left − 484) >= 12` otherwise. |
| Preview.ProjectCard.OnEnter | src/app/PortfolioClient.tsx:450-453 | Entering places the popup by the same rule and opens it. |
| Preview.ProjectCard.OnLeave | src/app/PortfolioClient.tsx:454 | Leaving closes the popup and keeps its position. |
| HtmlEscape.ReplaceAll | src/app/api/contact/route.ts:60 | A global literal replace writes only characters of the input or of the replacement. |
| HtmlEscape.ReplaceCharAppend | src/app/api/contact/route.ts:60 | Replacing one character distributes over concatenation. |
| HtmlEscape.ReplaceCharRemoves | src/app/api/contact/route.ts:60 | After replacing a character by a text without it, the character is gone. |
| HtmlEscape.EscapeHtml | src/app/api/contact/route.ts:59-61 | The output contains no `<` and no `>`. |
| HtmlEscape.EscapeHtmlArg | src/app/api/contact/route.ts:59 | An absent argument escapes to the empty string. |
| HtmlEscape.EscapeAppend | src/app/api/contact/route.ts:59-61 | Escaping distributes over concatenation. |
| HtmlEscape.EscapeOne | src/app/api/contact/route.ts:60 | A single character escapes to its entity; any other character stands for itself. |
| HtmlEscape.EscapeIsPerCharacter | src/app/api/contact/route.ts:59-61 | The three chained replaces equal the per-character escaper, so other characters are kept in order. |
| HtmlEscape.EscapeLength | src/app/api/contact/route.ts:59-61 | The output length is `|s| + 4·#& + 3·#< + 3·#>`. |
| HtmlEscape.EscapeFixesPlainText | src/app/api/contact/route.ts:60 | A text is unchanged exactly when it has no `&`, `<` or `>`. |
| HtmlEscape.EveryAmpersandStartsEntity | src/app/api/contact/route.ts:60 | Every `&` of the output begins `&amp;`, `&lt;` or `&gt;`. |
| HtmlEscape.UnescapeLt | src/app/api/contact/route.ts:60 | Un-escaping `&lt;` first restores exactly the escaped `<`. |
| HtmlEscape.UnescapeGt | src/app/api/contact/route.ts:60 | Then un-escaping `&gt;` restores exactly the escaped `>`. |
| HtmlEscape.UnescapeAmp | src/app/api/contact/route.ts:60 | Then un-escaping `&amp;` restores the input. |
| HtmlEscape.UnescapeEscape | src/app/api/contact/route.ts:60 | Un-escaping `&lt;`, `&gt;` and then `&amp;` recovers any input exactly. |
| HtmlEscape.BreaksOnlyTags | src/app/api/contact/route.ts:48 | In a text without `<`, after the newline replacement every `<` begins `<br/>`. |
| HtmlEscape.MessageTagsAreBreaks | src/app/api/contact/route.ts:48 | In the message markup, every `<` begins a `<br/>`. |
| HtmlEscape.MessageHtml | src/app/api/contact/route.ts:48 | The message markup: the escaped message, with every newline replaced by `<br/>`. `MessageTagsAreBreaks` bounds what it can contain. |
| ContactRoute.OrElse | src/app/api/contact/route.ts:39-40 | The `or` fallback is v when v is truthy, and the fallback otherwise. |
| ContactRoute.Truthy | src/app/api/contact/route.ts:19 | The truthiness test of an optional string field: present and not empty. |
| ContactRoute.FromAddress | src/app/api/contact/route.ts:39 | `from` falls back from MAIL_FROM to SMTP_USER to `no-reply@example.com`, and is never empty. |
| ContactRoute.ToAddress | src/app/api/contact/route.ts:40 | `to` falls back from MAIL_TO to `martinenke.info@gmail.com`, and is never empty. |
| ContactRoute.Compose | src/app/api/contact/route.ts:42-49 | The mail carries the fallback addresses, the sender as reply-to, the subject, the text body and the HTML body. |
| ContactRoute.Subject | src/app/api/contact/route.ts:45 | The subject: `Portfolio contact — ` followed by the sender's name. |
| ContactRoute.PlainText | src/app/api/contact/route.ts:47 | The text body: `From: name <email>`, a blank line, then the message unescaped. |
| ContactRoute.HtmlBody | src/app/api/contact/route.ts:48 | The HTML body: the sender line with the escaped name and address, then the message markup, each in a `<p>`. `HtmlBodyOpensOnlyTemplateTags` proves what it can contain. |
| ContactRoute.ReadBody | src/app/api/contact/route.ts:16-24 | The body is unreadable exactly for unparsable JSON and `null`. An object is read as itself, and any other value as four absent fields. |
| ContactRoute.Post | src/app/api/contact/route.ts:14-56 | The reply is 200, 400 or 500. A truthy honeypot gives 200 and sends nothing. An empty honeypot with a missing field gives 400 and sends nothing. A mail is sent exactly for an empty honeypot and all three fields. Then the reply is 200 exactly when delivery succeeds. A body that cannot be read (`None`) gives 500. |
| ContactRoute.HoneypotFirst | src/app/api/contact/route.ts:19-22 | With the honeypot filled, no other field, environment variable or transport outcome changes the result. |
| ContactRoute.MissingFieldsSendNothing | src/app/api/contact/route.ts:24-27 | The 400 reply comes exactly for an empty honeypot with a field missing, and then no mail is sent. |
| ContactRoute.UnreadableBodies | src/app/api/contact/route.ts:16-27 | Unparsable JSON and `null` get the 500 reply and no mail. Any other non-object JSON value gets the 400 reply. The 500 reply without a mail comes exactly for those two bodies. |
| ContactRoute.HtmlBodyOpensOnlyTemplateTags | src/app/api/contact/route.ts:48 | Whatever the visitor writes, every `<` of the HTML body begins a template tag or a `<br/>`. |
| ContactForm.TrimShape | src/app/PortfolioClient.tsx:146-149 | `trim` keeps a slice with only white space around it. It is empty exactly for all-white-space input, and otherwise starts and ends with non-white-space. |
| ContactForm.Trim | src/app/PortfolioClient.tsx:146-149 | `String.prototype.trim`: the slice between the leading and trailing white space. `TrimShape`, `TrimIdempotent` and `FieldEmptyIff` state its properties. |
| ContactForm.TrimIdempotent | src/app/PortfolioClient.tsx:146-149 | Trimming twice is trimming once. |
| ContactForm.Field | src/app/PortfolioClient.tsx:146-149 | An absent field reads as the empty string; a present one is trimmed. |
| ContactForm.FieldEmptyIff | src/app/PortfolioClient.tsx:146-156 | A field counts as empty exactly when it is absent or all white space. |
| ContactForm.OnSubmit | src/app/PortfolioClient.tsx:142-162 | A non-empty trimmed honeypot gives 'ok' and a reset, whatever the other fields are. Otherwise a missing field gives 'error' with "Please fill out all fields.". A request is sent exactly when neither happens, and then it carries the trimmed fields. |
| ContactForm.ErrorMessage | src/app/page.tsx:77-79 | A thrown non-Error shows "Something went wrong.". Under `err instanceof Error` (src/app/PortfolioClient.tsx:173) an Error shows its message, even an empty one. Under the fallback on `err?.message` (src/app/page.tsx:78) an Error with a message shows it, an empty message shows "Something went wrong.", and the shown message is never empty. |
| ContactForm.Settle | src/app/PortfolioClient.tsx:163-176 | After the fetch, the status is 'ok' with a reset exactly for an ok response. A non-ok response shows "Failed to send", and a rejected fetch shows the message `ErrorMessage` takes from what was thrown. Every other outcome is 'error' with a message. |
| ContactForm.AsBody | src/app/PortfolioClient.tsx:167 | The posted JSON carries the four fields as present strings. |
| ContactForm.SentFormReachesMail | src/app/PortfolioClient.tsx:164-168 | Whatever the form sends passes both gates of the route. The mail is composed from exactly the trimmed fields, and the reply is 200 exactly when delivered. |

## Left out

- Canvas drawing (`clearRect`, `fillRect`, `strokeRect`, `setTransform`, the backing-store
  resize) and the `--cell` CSS variable are rendering output. The model computes the fill of
  every cell instead. The stroke colour is only kept as a constant in `Config`.
- `requestAnimationFrame`, `addEventListener`/`removeEventListener`, `matchMedia`,
  `getBoundingClientRect` and `visibilitychange` are platform plumbing. Their results are
  method parameters, and each listener is a method.
- Floating point: all arithmetic is on reals. `Math.round` is exact rounding with halves up,
  and hue channels are real-valued inside the sums. `Math.cos`, `Math.sin`, `Math.exp` and
  `Math.hypot` are inputs with the range facts stated above. `Math.random` is a parameter in
  [0, 1).
- JsMath.Rem: `%` is modelled as `x − m·trunc(x/m)` with no contract of its own. The hue
  colour only needs the HSL channel bound, which holds for any k.
- The passes are values: the class holds a `seq<Pass>` that each frame replaces. So the
  in-place `p.pos +=` through object references and the aliasing of the `p` captured by the
  cache are not modelled; the source never exposes those references outside `draw`.
- The pass direction is kept as `(cos angle, sin angle)` rather than the angle itself.
- `fetch`, the nodemailer transport and its SMTP settings (`SMTP_HOST`, `SMTP_PORT`,
  `SMTP_PASS`), `NextResponse`, `console.error`, the 300 ms honeypot delay and the
  4000 ms status reset are network and timer I/O. The route model returns the reply and the
  mail it would hand to the transport.
- Request bodies whose fields are JSON values other than strings are not modelled; `Body`
  fields are `Option<string>`. `FormData` entries that are files are not modelled either.
- `formatBlogDate`, JSX, framer-motion, `createPortal`, the content arrays,
  `opengraph-image.tsx`, `layout.tsx` and `sitemap.ts` hold no logic of the modelled core.
- ContactForm.ErrorMessage: `err instanceof Error` and `err?.message` are modelled by
  `Thrown`, which is an object with a string message or something else. A non-Error object
  with a `message` property is not distinguished from an Error.
- `dt` has no upper bound after a hidden tab: `Shimmer.FrameSeconds` has only the lower
  bound 0.001. Unmounting removes the listeners but never stops the `requestAnimationFrame`
  loop (src/app/PortfolioClient.tsx:822-829), so nothing models unmounting. There is no
  early return for a zero-area viewport.
- The reverse loop tests every pass it visits for a spawn (`Shimmer.AdvanceOne`), and only
  index 0, the oldest pass, can pass the test (`Sweep.SpawnDue`, `Shimmer.SpawnTest`).
