# A verified model of the portfolio site's front-end logic

The site's script `js/main.js` renders a one-page portfolio from a JSON content
document. Most of it builds HTML. This project models the parts that compute
something, and proves what they promise:

- **Drive-link rewriting** (`googleDrivePreview`). A Google Drive sharing link for
  a certificate is turned into a direct thumbnail URL,
  `https://drive.google.com/thumbnail?id=<id>&sz=w1000`. The id is the text after
  the first occurrence of `id=` anywhere in the link, which may also be inside a
  parameter such as `ouid=`; only a link without any `id=` takes its id from the
  path segment after `/d/`. Empty links, `#`, mail links, links off Drive and Drive
  folder links pass through unchanged (modules `Strings`, `DriveLink`).
- **The infinite project carousel** (`renderProjects`, `setupProjectSlider`). The
  strip holds the N project cards, with clones of the last three cards before
  them and clones of the first three after them. Scrolling into the clones
  teleports the offset by the width of all N cards. The active dot is computed
  from the scroll offset with JavaScript's truncating `%`. Arrows, dots, drag and
  a 4-second autoplay interval move the strip (modules `CarouselIndex`,
  `CarouselLayout`, `ProjectSlider`).
- **The mouse trail of the background canvas** (`setupParticles`). Each mouse move
  spawns two short-lived particles. Each animation frame updates every particle
  and splices the dead ones out of the array while iterating over it (module
  `Trail`).
- **Critical assets** (`loadCriticalAssets`). This is the list of image URLs
  preloaded before the page is shown (module `CriticalAssets`).

Modelling choices:

- Strings are `seq<char>`. A falsy link is the empty string. A field the content
  document may omit is an `Option` (`SiteData`, `Wrappers`).
- Scroll offsets and card widths are integers.
  - `Math.round(x / w)` is the integer `r` with `2wr - w <= 2x < 2wr + w`, that is
    `floor(x / w + 1/2)`.
  - `Math.round(x / w - 3)` is written `RoundDiv(x, w) - 3`. This is the same for
    an integer shift.
  - JavaScript's `%` is modelled as `JsRem`, which truncates toward zero.
- The browser's smooth `scrollBy`/`scrollTo` are modelled by the offset they end
  at. The scroll event they cause is a separate call of `Slider.OnScroll`.
- The dot classes are the array `Slider.dots`. The active dot index, a local in
  the source, is kept in `Slider.activeIndex`.
- Interval handles are natural numbers. The intervals still running are the
  ghost set `Slider.liveIntervals`.
- The site's design describes the Drive id as coming from an `id=` query
  parameter or a `/d/<id>/` path segment. The code tests the substring `id=`
  anywhere in the link, so `.../file/d/ABC/view?ouid=123` yields `123`. The model
  follows the code (`DriveLink.SubstringIdExample`).
- Trail particles use fixed point in thousandths: 1000 is one pixel, or full
  life. `size *= 0.95` becomes `size * 95 / 100`, rounded down. A `Math.random()`
  draw is an integer in [0, 1000) passed in by the caller (`Trail.Draws`).

## Model

| member | source | states |
|---|---|---|
| Strings.Contains | js/main.js:244-252 | `url.includes(p)` holds exactly when `p` occurs at some position of `url` |
| Strings.SplitFirst | js/main.js:251-253 | for a non-empty separator, `s.split(sep)[0]` is the prefix of `s` before the first occurrence of `sep`, or all of `s` when there is none |
| Strings.SplitSecond | js/main.js:251-253 | `s.split(sep)[1]` for an `s` containing `sep` is the text after the first `sep` up to the next occurrence of `sep` (no occurrence starts inside it), or to the end when there is none |
| Strings.SplitFirstUnique | js/main.js:251-253 | the three conditions of SplitFirst's contract determine the first piece of a split uniquely |
| DriveLink.IsPassThrough | js/main.js:244-245 | a link that is not passed through is not `#` and contains `drive.google.com` |
| DriveLink.FileId | js/main.js:249-254 | with an `id=` the file id is a prefix of the text after the first `id=` and holds no `&`; otherwise, with a `/d/`, a prefix of the text after the first `/d/` holding no `/`; otherwise it is empty |
| DriveLink.DrivePreview | js/main.js:243-259 | a passed-through link is returned unchanged; any other link becomes the thumbnail URL of its file id when that id is non-empty, and is returned unchanged when it is empty |
| DriveLink.PassThroughUnchanged | js/main.js:244-245 | an empty link, `#`, a link containing `mailto:`, a link without `drive.google.com` or one containing `/folders/` is returned unchanged |
| DriveLink.IdParameterText | js/main.js:251 | `split('id=')[1].split('&')[0]` yields the text after the first `id=`, holding no `&`, up to the end, the next `&` or the next `id=`, whichever comes first |
| DriveLink.IdParameterLink | js/main.js:250-251 | for a rewritable link with an `id=` (first at k), the file id is taken after that `id=`, even if the link has a `/d/` segment; the result is the thumbnail of that id, or the link itself when the id is empty |
| DriveLink.PathSegmentId | js/main.js:252-253 | without `id=`, the file id is the text between the first `/d/` and the next `/` |
| DriveLink.PathSegmentLink | js/main.js:252-255 | a rewritable `/d/` link without `id=` becomes the thumbnail of its path-segment id, or stays unchanged when that id is empty |
| DriveLink.NoIdLinkUnchanged | js/main.js:249-255 | a link with neither `id=` nor `/d/` is returned unchanged (empty `fileId` is falsy) |
| DriveLink.FirstIdParameter | js/main.js:251 | in `a + "id=" + b` with no `id=` in `a`, the first `id=` is the one right after `a` |
| DriveLink.NoIdParameterAcrossAmpersand | js/main.js:251 | joining two texts without `id=` by a `&` creates no `id=` |
| DriveLink.AmpersandEndsId | js/main.js:251 | after `id=`, an id with neither `&` nor `id=` followed by `&` and any query is extracted whole |
| DriveLink.ThumbnailFileId | js/main.js:250-251 | the id read back out of a thumbnail URL is the id it was built from, when that id holds neither `&` nor `id=` |
| DriveLink.ThumbnailIsFixedPoint | js/main.js:250-255 | the thumbnail URL of a non-empty id without `&` or `id=` is rewritten to itself |
| DriveLink.ParameterIdHasNoIdParameter | js/main.js:250-251 | an id taken from an `id=` parameter contains no `id=` |
| DriveLink.SegmentIdHasNoIdParameter | js/main.js:252-253 | an id taken from a `/d/` segment of a link without `id=` contains no `id=` |
| DriveLink.PreviewIdempotent | js/main.js:243-259 | rewriting a rewritten link changes nothing, whenever the extracted id holds no `&` |
| DriveLink.DriveHostLink | js/main.js:244-245 | a `https://drive.google.com` link that is neither a mail nor a folder link does not pass through |
| DriveLink.OpenLink | js/main.js:250-255 | `https://drive.google.com/open?id=<id>&<query>` becomes the thumbnail of `<id>` |
| DriveLink.FirstPathSegment | js/main.js:252-253 | in a `https://drive.google.com/file/d/...` link the first `/d/` is the one after `/file` |
| DriveLink.FileLink | js/main.js:252-255 | `https://drive.google.com/file/d/<id>/<tail>` without `id=` becomes the thumbnail of `<id>` |
| DriveLink.OpenLinkExample | js/main.js:243-259 | the `open?id=ABC123&x=1` link becomes the thumbnail of `ABC123` |
| DriveLink.SubstringIdExample | js/main.js:250-251 | `includes('id=')` is a substring test: `file/d/ABC/view?ouid=123` becomes the thumbnail of `123`, not of `ABC` |
| DriveLink.FileLinkExample | js/main.js:243-259 | the `file/d/XYZ789/view` link becomes the thumbnail of `XYZ789` |
| CarouselIndex.RoundDiv | js/main.js:626 | `Math.round(x / w)` is the integer within half a card of `x / w` (half rounded up) |
| CarouselIndex.RoundDivUnique | js/main.js:626 | only one integer lies within half a card of `x / w` |
| CarouselIndex.JsRem | js/main.js:627 | JavaScript's `%` has the sign of the dividend, magnitude below `\|n\|`, and differs from the dividend by a multiple of `n` |
| CarouselIndex.ActiveIndex | js/main.js:627 | `(r % N + N) % N` lies in `[0, N)` and is the mathematical residue of `r` modulo N |
| CarouselIndex.ActiveIndexAt | js/main.js:626-627 | the dot index computed from any scroll offset lies in `[0, N)` |
| CarouselIndex.RoundDivOnCard | js/main.js:626 | at the offset `cardWidth * p` the rounded position is exactly `p` |
| CarouselIndex.ActiveIndexOnCard | js/main.js:590-627 | at the offset of strip position `p` the active dot is `(p - 3) mod N`; the initial offset activates dot 0 |
| CarouselIndex.DotTargetRoundTrip | js/main.js:598-627 | scrolling to the target of dot `i`, `cardWidth * (i + 3)`, activates dot `i` |
| CarouselIndex.FullTurnReturnsToFirstDot | js/main.js:590-627 | N card widths past the initial offset, dot 0 is active again |
| CarouselIndex.RoundDivShift | js/main.js:626 | moving the offset by `j` card widths moves the rounded position by `j` |
| CarouselIndex.TeleportKeepsActiveIndex | js/main.js:613-627 | moving the offset by `±cardWidth * N` leaves the active dot unchanged |
| CarouselLayout.Strip | js/main.js:228-239 | the finished strip has `N + 6` cards, and its positions 3 to `N + 2` are the real cards in order |
| CarouselLayout.RenderProjects | js/main.js:228-239 | the clone loops fail (TypeError) exactly when there are fewer than 3 projects; otherwise the strip is clones of the last three cards, the real cards, clones of the first three; after a failure the strip keeps the real cards and the clones appended before it |
| CarouselLayout.StripSize | js/main.js:587 | `cards.length - 6` recovers the number of projects from the strip |
| CarouselLayout.StripPosition | js/main.js:228-239 | strip position `p` shows project `(p - 3) mod N`, and is a clone exactly when `p < 3` or `p >= N + 3` |
| CarouselLayout.ActiveDotNamesVisibleProject | js/main.js:626-631 | at the offset of any strip position, the active dot names the project shown there, clone or not |
| CarouselLayout.TeleportTwins | js/main.js:613-622 | positions `p` and `p + N` show the same project, so a teleport changes nothing visible |
| ProjectSlider.Handles | js/main.js:676 | an optional interval handle denotes at most one interval |
| ProjectSlider.Slider.AtMostOneInterval | js/main.js:676-692 | in every reachable state at most one autoplay interval runs, the one `autoPlayInterval` holds |
| ProjectSlider.Slider.constructor | js/main.js:582-694 | card width is `offsetWidth + 32`, N is `cards.length - 6`, the initial offset is `cardWidth * 3` where dot 0 is active and alone active, and one autoplay interval runs |
| ProjectSlider.Slider.OnScroll | js/main.js:606-631 | nothing changes while a jump is pending; otherwise the offset moves by `+cardWidth * N` at or below the first threshold, by `-cardWidth * N` at or above the second, not at all between them; exactly the dot of the offset is active afterwards, and it is the dot of the offset before the jump |
| ProjectSlider.Slider.JumpTimeout | js/main.js:616-622 | the jump timeout clears `isJumping` and nothing else |
| ProjectSlider.Slider.StopAutoPlay | js/main.js:685-687 | afterwards no interval runs; the stale handle is kept |
| ProjectSlider.Slider.StartAutoPlay | js/main.js:678-683 | afterwards exactly one interval runs, the new one, whatever was running before |
| ProjectSlider.Slider.ResetAutoPlay | js/main.js:689-692 | afterwards exactly one interval runs, the new one |
| ProjectSlider.Slider.AutoPlayTick | js/main.js:679-681 | a tick of the running interval scrolls one card width forward |
| ProjectSlider.Slider.PrevClick | js/main.js:635-638 | the previous arrow scrolls one card width back and restarts autoplay |
| ProjectSlider.Slider.NextClick | js/main.js:640-643 | the next arrow scrolls one card width forward and restarts autoplay |
| ProjectSlider.Slider.DotClick | js/main.js:597-600 | a click on dot `i` scrolls to `cardWidth * (i + 3)`, where dot `i` is the active one, and restarts autoplay |
| ProjectSlider.Slider.MouseDown | js/main.js:650-656 | a press starts a drag and stops autoplay |
| ProjectSlider.Slider.MouseRelease | js/main.js:657-666 | release or leave ends the drag and leaves exactly one interval running |
| ProjectSlider.Slider.MouseEnter | js/main.js:695 | entering the slider stops autoplay |
| Trail.Spawn | js/main.js:486-496 | a new particle sits at the mouse position, is 1 to 4 px, moves at most 1 px per frame on each axis, has full life and fades by 0.02 to 0.05 per frame |
| Trail.Update | js/main.js:498-503 | an update never grows a particle, shrinks any particle above 0.2 px, and lowers its life |
| Trail.IsDead | js/main.js:538 | a particle is kept only while its life is positive and its size above 0.2 px |
| Trail.Frame | js/main.js:534-542 | a frame never lengthens the trail, and every particle it keeps is live and the update of some particle of the previous frame |
| Trail.FramePreservesFading | js/main.js:486-542 | a frame keeps every particle at most at full life and fading by at least 0.02 per frame |
| Trail.Survivors | js/main.js:537-541 | the kept particles are live particles of the input |
| Trail.SurvivorsAppend | js/main.js:534-542 | filtering distributes over concatenation |
| Trail.SurvivorsKeepLive | js/main.js:537-541 | no live particle is removed |
| Trail.CompactedStep | js/main.js:534-542 | one pass of the loop (update, then splice and step back if dead) keeps the handled prefix equal to the filtered updated originals and the rest equal to the unvisited originals |
| Trail.ParticleField.AnimateTrail | js/main.js:534-542 | the splice-and-step-back loop leaves exactly the stable filter of the updated particles: none skipped, none updated twice, order kept; every particle stays fading |
| Trail.FrameFades | js/main.js:498-541 | each frame lowers every surviving particle's life by at least 0.02 |
| Trail.FramesFade | js/main.js:498-541 | after `n` frames every remaining particle has faded `n` more steps |
| Trail.TrailDrains | js/main.js:486-542 | 50 frames after the last spawn the trail is empty |
| Trail.ParticleField.StillFrames | js/main.js:534-544 | successive frames without a mouse move are the iterated frame function, and 50 of them leave the trail empty; every particle stays fading |
| Trail.ParticleField.constructor | js/main.js:387-391 | the trail starts empty, and the field is mobile exactly when the window is narrower than 768 px |
| Trail.ParticleField.MouseMove | js/main.js:393-403 | off mobile a mouse move appends two new particles at the mouse position; on mobile nothing; every particle stays fading |
| Trail.ParticleField.Resize | js/main.js:406-410 | a resize makes the field mobile exactly when the window is narrower than 768 px |
| CriticalAssets.FirstThree | js/main.js:836 | `slice(0, 3)` is the prefix of length `min(3, length)` |
| CriticalAssets.ProjectUrls | js/main.js:835-839 | project entries are non-empty images of the given projects, at most one each |
| CriticalAssets.CertificateUrls | js/main.js:842-846 | every certificate entry is `googleDrivePreview` of a present link, at most one per certificate |
| CriticalAssets.CriticalUrls | js/main.js:827-846 | the list has at most 8 entries |
| CriticalAssets.ProjectUrlsAppend | js/main.js:836-838 | collecting project images distributes over concatenation |
| CriticalAssets.CertificateUrlsAppend | js/main.js:843-845 | collecting certificate previews distributes over concatenation |
| CriticalAssets.ProjectUrlsAllPresent | js/main.js:836-838 | when every project has an image, the entries are those images, in order |
| CriticalAssets.CertificateUrlsAllPresent | js/main.js:843-845 | when every certificate has a link, the entries are the previews of those links, in order |
| CriticalAssets.HomeImageFirst | js/main.js:831 | a present home image is the first entry |
| CriticalAssets.FullList | js/main.js:827-846 | with all fields present the list has exactly 8 entries: home, about, three project images, three certificate previews, in that order |
| CriticalAssets.EmptyContent | js/main.js:830-846 | content without any of the four sections yields no entries |

## Left out

- The rest of `js/main.js` is left out. That covers the HTML templates of the other sections, `fetchData`, the contact form and its POST, the custom cursor, the mobile menu, the scroll-reveal observer, and the div-based `setupParticles` that the later declaration overrides.
- `loadImage` and the `Promise.all` over the URL list are left out. They are browser image loading and asynchrony. Only the list is modelled.
- The ambient particles of the canvas (`Particle`, its repulsion, wrap-around and drawing) are left out. They are floating-point physics driven by `Math.random()`. Drawing the trail particles is left out too.
- ProjectSlider.Slider.OnScroll: `maxScroll` is fixed when the slider is set up. The source reads `scrollWidth - clientWidth` on every event, and these change only when the layout changes (a resize), which is not modelled.
- ProjectSlider.Slider.OnScroll: the browser clamps `scrollLeft` to `[0, maxScroll]`. Offsets here are unbounded integers.
- The smooth animation of `scrollBy`/`scrollTo` and its intermediate scroll events are left out. Each is modelled by its final offset. The 50 ms and 4000 ms timer durations are not modelled either: `JumpTimeout` and `AutoPlayTick` are separate calls.
- The drag arithmetic of the slider's `mousemove` (`pageX`, `startX`, the walk of twice the distance) is left out. It is mouse geometry. `MouseDown` and `MouseRelease` model the drag flag and autoplay.
- ProjectSlider.Slider.constructor requires at least one real card (seven children). The source only returns early on zero children. With one to five children `realCardsCount` is between -5 and -1: no dot is created, and `%` by it stays finite. With exactly six children it is 0, and `%` by it yields `NaN`. Neither case is modelled. Neither is reached when the slider starts empty: with fewer than three projects `cloneNode` at js/main.js:233 throws, so the async `renderSite` stops at js/main.js:25, before `setupProjectSlider` at js/main.js:32. With three or more projects the slider has at least nine children.
- ProjectSlider.Slider.constructor: the `setupProjectSlider` returns for a missing slider element or for zero cards are not modelled. They are DOM lookups.
- CarouselLayout.RenderProjects: it models only the strip's children. The card markup built by `createCard` is not modelled.
- CarouselLayout.RenderProjects: assumes the slider starts empty. The source takes `Array.from(slider.children)` at js/main.js:229, which would also include any children already in the page markup.
- Strings.SplitFirst: an empty separator is not modelled as JavaScript splits it (into single characters). The source splits only at the non-empty literals `id=`, `&`, `/d/` and `/`.
- Trail.Spawn: `Math.random()` is a parameter in thousandths, so sizes, speeds and decays are rounded to thousandths. `Math.random() > 0.5` picks gold when the draw exceeds 500.
- Trail.Update: sizes are rounded down to thousandths of a pixel after each 5% shrink, where the source keeps a float.
- `trailParticles[i].draw()` between the update and the death test is left out. It only paints.
- CriticalAssets.CriticalUrls: a `null` or non-string `image` or `link` in the content document is not modelled. Fields are present strings or absent.
- DriveLink.PreviewIdempotent requires that the extracted id hold no `&`. A `/d/` segment id with a `&` would be cut short when the thumbnail URL is rewritten a second time.
