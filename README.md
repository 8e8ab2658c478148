# Portfolio app: script viewer, media classifier and `isOpposite`, in Dafny

This project models the three pieces of logic of a small portfolio
single-page app. The rest of the app is static page markup.

- `ScriptViewer` (script_viewer.dfy) models the `ShowScriptButton` modal.
  - It is a class `Viewer` with the component's five state cells: `code`,
    `activeTab`, `loading`, `error` and `visible`.
  - It also holds two logs: `requests`, every URL fetched, and `pending`,
    the files whose fetch has not completed.
  - `document.body.style.overflow` is the field of a `PageBody` object
    that every viewer on the page shares.
  - The handlers `fetchCode`, `showCode`, `closeCode` and the tab `onClick`
    are methods.
  - A fetch's completion is a separate event applied later, for any pending
    request and in any order: `ResolveOk`, `ResolveNotOk` or
    `ResolveNetworkError`.
  - The invariant `Valid()` is kept by every method. It says the active tab
    is one of the files (or "" when there are none), `loading` and a
    non-null `error` never hold together, and a loading viewer has a fetch
    in flight. From it follows that an open viewer shows exactly one panel.
- `MediaType` (media.dfy) models the `Media` component.
  - It sorts a path into video, image or an "Unsupported media type: "
    notice by a case-insensitive extension anchored at the end of the path.
  - The suffix test it runs is proved equivalent to a reference reading of
    the regular expression: some literal dot is followed by the rest of the
    path, which equals the extension up to letter case.
- `Opposite` (opposite.dfy) models the recursive `isOpposite` of `lol.py`.
  - Its recursion decreases the length of `a` by one on every call, which
    is Dafny's termination proof.
  - It is proved to hold only of two empty sequences (see Findings).

The code has no request tags, no reference counting of the scroll lock and
no guard against completions after close. The model keeps all of this as
written and exhibits each effect:

- the slower response for a tab the user left overwrites the newer tab's
  code (`StaleResponseOverwrites`);
- a stale error stays shown over code that arrived later
  (`StaleErrorHidesCode`);
- a response after close still writes `code` (`LateResponseAfterClose`);
- a response to the fetch issued before a close, arriving after the viewer
  is reopened, is shown while the new fetch is still in flight
  (`ResponseAcrossReopen`);
- closing one of two open viewers unlocks scrolling for both
  (`ClosingOneUnlocksAll`).

Opening the viewer fetches the tab that is currently active; it does not
reset the tab to the first file.

## Model

| member | source | states |
|---|---|---|
| `ScriptViewer.Viewer.constructor` | src/components/ShowScriptButton/ShowScriptButton.js:7-11 | starts closed, not loading, with no error, empty code, the first file (or "" when there are none) active, nothing fetched; the invariant holds |
| `ScriptViewer.Viewer.Valid` | src/components/ShowScriptButton/ShowScriptButton.js:8-29 | the invariant every handler keeps: the active tab is one of `scriptFiles` (or "" when there are none, lines 8 and 85-88); `loading` and a non-null `error` are never both set (lines 14-15, 24, 27-28); a loading viewer has a fetch in flight |
| `ScriptViewer.PageBody.constructor` | src/components/ShowScriptButton/ShowScriptButton.js:35-41 | `PageBody.overflow` stands for the page-wide `document.body.style.overflow`, written "hidden" on open (line 35) and "" on close (line 41); it starts as "", scrolling unlocked |
| `ScriptViewer.Viewer.FetchCode` | src/components/ShowScriptButton/ShowScriptButton.js:13-17 | sets loading, clears error and code, and issues exactly one request, to `folder + "/" + filename`; tab and visibility unchanged |
| `ScriptViewer.Viewer.ResolveOk` | src/components/ShowScriptButton/ShowScriptButton.js:18-25 | an ok response with body `t` sets `code = t`, stops loading, leaves `error` as it was, and retires that one request, whatever tab is active and whether the viewer is open |
| `ScriptViewer.Viewer.ResolveNotOk` | src/components/ShowScriptButton/ShowScriptButton.js:18-29 | a non-ok response sets `error` to "Failed to fetch " + that request's file, stops loading, leaves `code` as it was |
| `ScriptViewer.Viewer.ResolveNetworkError` | src/components/ShowScriptButton/ShowScriptButton.js:26-29 | a rejected fetch sets `error` to the rejection's message and stops loading, leaving `code` as it was |
| `ScriptViewer.Viewer.ShowCode` | src/components/ShowScriptButton/ShowScriptButton.js:32-36 | opens, sets overflow to "hidden", and fetches the current active tab, which stays what it was |
| `ScriptViewer.Viewer.CloseCode` | src/components/ShowScriptButton/ShowScriptButton.js:38-42 | closes, empties `code`, sets overflow to ""; tab, loading, error and requests unchanged |
| `ScriptViewer.Viewer.ClickTab` | src/components/ShowScriptButton/ShowScriptButton.js:85-89 | clicking the active tab changes nothing and fetches nothing; clicking another file of the set makes it active and starts exactly one fetch for it |
| `ScriptViewer.Panels` | src/components/ShowScriptButton/ShowScriptButton.js:97-107 | one or two panels: the loading text exactly when loading, the error when it is truthy, the code exactly when neither holds |
| `ScriptViewer.OnePanelShown` | src/components/ShowScriptButton/ShowScriptButton.js:97-99 | when loading and a non-null error never coincide, exactly one panel is shown, and which one |
| `ScriptViewer.Viewer.View` | src/components/ShowScriptButton/ShowScriptButton.js:54-107 | nothing is shown while closed; while open one or two panels, the loading text exactly when loading |
| `ScriptViewer.ValidViewerShowsOnePanel` | src/components/ShowScriptButton/ShowScriptButton.js:14-29 | every state the handlers can reach shows exactly one panel while open |
| `ScriptViewer.PreviewRequestUrl` | src/components/Preview/Preview.js:12 | a card's viewer requests `PUBLIC_URL + "/code/" + CodeName + "/" + file` |
| `ScriptViewer.OpenPreviewExample` | src/components/ShowScriptButton/ShowScriptButton.js:32-36 | opening a Scripts-page card activates its first file, issues one request to its URL and shows the loading text |
| `ScriptViewer.NotFoundExample` | src/components/ShowScriptButton/ShowScriptButton.js:19-29 | a non-ok response for "a.lua" ends loading and shows the error "Failed to fetch a.lua" |
| `ScriptViewer.StaleResponseOverwrites` | src/components/ShowScriptButton/ShowScriptButton.js:22-25 | with "b.lua" active, the late response for "a.lua" is what is shown |
| `ScriptViewer.StaleErrorHidesCode` | src/components/ShowScriptButton/ShowScriptButton.js:26-29 | a late failure for the tab left behind stays shown after the active tab's code has arrived |
| `ScriptViewer.LateResponseAfterClose` | src/components/ShowScriptButton/ShowScriptButton.js:38-42 | a response after close still writes `code`; reopening empties it and requests the same file again |
| `ScriptViewer.ResponseAcrossReopen` | src/components/ShowScriptButton/ShowScriptButton.js:22-25 | after close and reopen, the response to the earlier fetch is shown while the reopened fetch is still pending |
| `ScriptViewer.ClosingOneUnlocksAll` | src/components/ShowScriptButton/ShowScriptButton.js:35-41 | closing one of two open viewers sets overflow to "" while the other stays open |
| `MediaType.Media` | src/components/Media/Media.js:3-31 | a video or image carries the given path, an image the given `alt` (default ""), and the notice reads "Unsupported media type: " + path |
| `MediaType.MediaClassifiesByExtension` | src/components/Media/Media.js:4-31 | video exactly when a literal dot is followed by mp4, webm or ogg up to case at the end; image exactly when not video and the same holds of jpeg, jpg, png, gif or svg; the notice otherwise |
| `MediaType.EndsWithIffHasExtension` | src/components/Media/Media.js:4-5 | the lower-cased suffix test equals the reading "some dot followed by the rest of the path, equal to the extension up to case" |
| `MediaType.ExtensionSetsDisjoint` | src/components/Media/Media.js:4-5 | no path matches both the video and the image pattern |
| `MediaType.ExactlyOneOutcome` | src/components/Media/Media.js:7-31 | a video never also matches the image pattern and the image outcome occurs exactly when the image pattern matches, so the video-first order changes nothing |
| `MediaType.CaseInsensitive` | src/components/Media/Media.js:4-5 | two paths equal up to letter case get the same outcome |
| `MediaType.UnsupportedWhenShort` | src/components/Media/Media.js:4-31 | a path of fewer than four characters (such as "mp4") is unsupported, never an error |
| `MediaType.VideoExample` | src/components/Media/Media.js:4-18 | "x.mp4" and "X.MP4" are both videos |
| `MediaType.ImageExample` | src/components/Media/Media.js:20-29 | "/DungeonGeneration.png" is an image carrying its `alt` |
| `MediaType.AnchoredExample` | src/components/Media/Media.js:4 | "a.mp4.txt" gives the notice: the extension must end the path |
| `MediaType.BareExtensionExample` | src/components/Media/Media.js:31 | "mp4" gives "Unsupported media type: mp4" |
| `MediaType.UnknownExtensionExample` | src/components/Media/Media.js:31 | "photo.bmp" gives "Unsupported media type: photo.bmp", whatever the `alt` |
| `MediaType.DotRequiredExample` | src/components/Media/Media.js:4 | "a.xmp4" is unsupported: the extension needs a literal dot before it |
| `Opposite.IsOpposite` | src/components/ShowScriptButton/lol.py:1-11 | true for two empty sequences; false when the lengths differ, when the first elements are equal, or when `a[0]` differs from `b[-1]` |
| `Opposite.LengthOneRejected` | src/components/ShowScriptButton/lol.py:5-9 | every pair of one-element sequences is rejected, because `b[0]` is `b[-1]` |
| `Opposite.OppositeOnlyEmpty` | src/components/ShowScriptButton/lol.py:1-11 | the function holds exactly of two empty sequences |
| `Opposite.ScriptExampleIsFalse` | src/components/ShowScriptButton/lol.py:13 | the script's own call on [1,2,3], [3,2,1] gives False |
| `Opposite.IsReverseOf` | src/components/ShowScriptButton/lol.py:1-11 | the corrected check without the `a[0] == b[0]` guard; it holds only of sequences of equal length |
| `Opposite.ReverseOfCorrect` | src/components/ShowScriptButton/lol.py:1-11 | the corrected check holds exactly when `a` is `b` reversed |
| `Opposite.ReverseOfIndexwise` | src/components/ShowScriptButton/lol.py:8-11 | the corrected check holds exactly when the lengths agree and `a[i] == b[len(b)-1-i]` for every `i` |
| `Opposite.ScriptExampleCorrected` | src/components/ShowScriptButton/lol.py:13 | the corrected check answers True on [1,2,3], [3,2,1] |

## Left out

- Routing, page bodies, the lazy-loading wrappers and `PreviewProject`'s path concatenation: markup and framework plumbing with no logic of their own.
- Rendering details: class strings, animation properties, the syntax highlighter's output (its language is fixed to "lua"), and the fixed video attributes (controls, autoplay, muted, loop). `Media`'s `className` argument only feeds class strings.
- The `fetch`/Promise machinery, the event loop and timing. A completion is an explicit event on one pending request. Reading the body of an ok response is folded into `ResolveOk`; its failure counts as `ResolveNetworkError`.
- React's batching of state updates, unmounting, and updates after unmount. The handlers' updates are applied in sequence.
- The real DOM. `document.body.style.overflow` is one shared string field.
- An absent `scriptFiles` is modelled as the empty sequence; both give the initial tab "". Rendering the tab bar would throw in that case, which is not modelled.
- PropTypes and defaultProps validation: runtime checks of a library.
- The `print` of `lol.py`: I/O. Its call is stated as a lemma.
- `Opposite.IsOpposite`: Python's recursion limit is not modelled. Inputs that pass the guards at every level, such as `a = [1]*(n-1) + [2]` and `b = [2] + [1]*(n-1)`, recurse n deep; with the default limit of 1000 frames an n near 1000 raises `RecursionError`, where the model returns false.
- `MediaType.Media`: letter case is folded for ASCII letters only. The `i` flag of a non-Unicode regular expression never maps a non-ASCII character to an ASCII one, so this changes no outcome for the extensions used.

## Findings

| source | as written | input that shows it | evidently intended | confidence | as-written member | corrected member |
|---|---|---|---|---|---|---|
| src/components/ShowScriptButton/lol.py:5 | `a[0] == b[0]` returns False also for one-element inputs, where `b[0]` is `b[-1]`, so only two empty lists give True | `isOpposite([1,2,3], [3,2,1])` gives False, the call the script itself prints | True exactly when `a` is `b` reversed | medium; not executed | `Opposite.OppositeOnlyEmpty` | `Opposite.ReverseOfCorrect` |
