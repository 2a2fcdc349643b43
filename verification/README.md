# Navigation controller of a browser file explorer, in Dafny

The explorer lets a user walk a remote tree of directories and files, follow a
breadcrumb trail back up, and preview an image file. Its only real logic is the
controller in `src/App.js`: one session record (`isRoot`, `nodes`, `depth`,
`selectedFilePath`, `isLoading`), a module-wide cache from a position (the root or a
directory id) to the fetched child listing, and five handlers — start-up, breadcrumb
click, node click, back, and image dismiss — that compute the next record from the
current record, the cache and, on a cache miss, the result of one fetch.

The model is a pure reducer:

- `Tree` — `Node` (`Directory(id, name)` / `File(id, name, filePath)`), the cache key
  `Key` (`Root | Dir(id)`), and `FetchOutcome` (`Ok(listing)` / `Err`), which stands for
  the asynchronous endpoint call.
- `Store` — the session record `State`, the `Cache` (`map<Key, seq<Node>>`), the
  invariant `Consistent`, and `Effect`: what one handler did, namely the states it passed
  to `setState` in order, the cache afterwards, the key it fetched, and whether it threw.
  `nodes` is an `Option` because the App reads the cache without a presence check and
  may store `undefined`.
- `Controller` — `Init`, `ClickCrumb`, `ClickNode`, `ClickBack`, `DismissImage`, and the
  dispatcher `Step` over an `Action`.
- `Consistency` — each handler preserves `Consistent`: the root and every directory on the
  breadcrumb stack are cached, `isRoot` holds exactly when the stack is empty, the listing
  shown is the cached listing of the current position, and no fetch is outstanding.
- `History` — runs of actions: consistency along a whole session, the write-once cache,
  and no second fetch of a position once it was fetched successfully.
- `Walkthrough` — a concrete session through a directory and a picture.

Behaviours of the code a reader might not expect:

- The `finally` of the node-click handler runs on every path. So a cached-directory click
  and a file click also end with a replacement that clears `isLoading`.
- "At most one fetch per position" holds only for successful fetches. A failed fetch
  leaves the position uncached, and the next click on it fetches again.
- A breadcrumb index past the end keeps the whole stack, as `slice` does. With an empty
  stack, reading the last kept entry's id throws.
- Back at the root is a no-op on the stack, because popping an empty array does nothing.
  It still replaces the state and shows the cached root listing.

## Model

| member | source | states |
|---|---|---|
| Controller.Init | src/App.js:151-173 | start-up shows the loading indicator first, fetches the root, and clears the indicator on both paths; on success the root listing is shown at the root and becomes the only cache entry; on failure the initial record is kept, the cache stays empty and the error propagates |
| Controller.ClickCrumb | src/App.js:36-59 | the root crumb empties the stack, sets `isRoot` and shows the root's cache entry, keeping preview and loading flags; the current crumb renders nothing and leaves the state identical; a shallower crumb truncates the stack just after it and shows that directory's entry with every other field kept; no crumb click fetches or writes the cache |
| Controller.ClickNode | src/App.js:67-106 | a file click changes only the preview path; a cached directory is pushed and its cached listing shown without a fetch; an uncached directory first renders `isLoading == true`, then on success is pushed, shown and cached under its id, and on failure leaves position and cache as they were and throws; every path ends with `isLoading == false` |
| Controller.ClickBack | src/App.js:107-133 | back removes exactly the top of the stack (an empty stack stays empty), sets `isRoot` exactly when the stack becomes empty, shows the cache entry of the position reached, and neither fetches nor writes the cache nor touches preview and loading flags |
| Controller.DismissImage | src/App.js:138-143 | dismissing the preview clears the preview path and leaves position, loading flag and cache unchanged |
| Controller.Step | src/App.js:36-143 | every action only adds to the cache and never changes an existing entry; a fetch is issued only for an uncached position, and that position is the only one that can be added; a fetch is bracketed by a first render with `isLoading` set and a final state with it cleared |
| Consistency.InitEstablishes | src/App.js:151-173 | a successful start-up leaves the session consistent with the cache |
| Consistency.FailedInitLeavesRootUnknown | src/App.js:36-44 | after a failed start-up the session is not consistent, and the root crumb stores `undefined` as the listing |
| Consistency.CrumbPreserves | src/App.js:36-59 | from a consistent session every breadcrumb click reads a cached listing and keeps the session consistent |
| Consistency.NodePreserves | src/App.js:67-106 | from a consistent session every node click, on every fetch outcome, keeps the session consistent with the updated cache |
| Consistency.BackPreserves | src/App.js:107-129 | from a consistent session back reads a cached listing and keeps the session consistent |
| Consistency.DismissPreserves | src/App.js:138-143 | dismissing the preview keeps a consistent session consistent |
| Consistency.StepPreserves | src/App.js:36-143 | any single action keeps a consistent session consistent |
| History.TraceConsistent | src/App.js:36-143 | every session of a run of actions from a consistent session is consistent |
| History.SessionConsistent | src/App.js:151-175 | after a successful start-up, at every point of any run, the root is cached, `isRoot` holds exactly when the stack is empty, and the listing shown is the cache entry of the current position |
| History.TraceCacheGrows | src/App.js:83-90 | along a run the cache is write-once: a later cache holds every earlier entry unchanged |
| History.NoRefetchAfterSuccess | src/App.js:70-90 | once a position was fetched successfully, no later action of the run fetches it again |
| History.NoRootRefetch | src/App.js:67-106 | only start-up fetches the root: node clicks fetch by directory id and no other action fetches, so no action of any run fetches the root |
| History.RevisitShowsFirstListing | src/App.js:69-90 | clicking a directory with the same id again after a successful fetch of it issues no fetch and shows the listing the first fetch returned |
| Walkthrough.PicturesWalkthrough | src/App.js:67-173 | entering an uncached directory fetches once by its id and shows its listing; previewing a file and dismissing it restore the position; back returns to the root listing without a fetch |

## Left out

- `src/api/fetchData.js` (the HTTP request, status check, JSON parsing and error wrapping): the fetch is the abstract outcome `FetchOutcome`, and a thrown error is the `failed` flag of an `Effect`. The error messages carry no behaviour to prove.
- `src/components/ImageView.js` and the other widgets (DOM creation, rendering, display toggling, event listeners): they are presentation. The image viewer's only effect on the controller is the dismiss action.
- The fan-out of `setState` to the four views (`src/App.js:21-30`): the model records each replacement in `Effect.renders` but not what the views draw.
- Clicks that arrive while a fetch is outstanding: each action runs to completion before the next one, so the race between an awaited fetch and a later click is not modelled.
- The in-place `pop` on a shallow copy of the state in `onBackClick`: the stack is an immutable sequence. Because the old record is replaced anyway, this makes no difference for sequential actions.
- Negative breadcrumb indices: the index is a `nat`, because the breadcrumb widget issues only `null` or the position of a crumb it rendered.
- The truthiness test `cache[node.id]` on a plain object: it is modelled as key presence, with separate `Root` and `Dir` keys. This differs from the App for a directory id equal to `"root"`, which would read the root's entry, and for an id naming a property every plain object inherits (`constructor`, `toString`, `valueOf`, `__proto__`, ...), which the App treats as already cached and never fetches. A non-array body from the endpoint is not modelled either.
- A second `App` sharing the module-level cache: `Init` starts from the empty cache, as one App does right after the module loads.
- Start-up as an `Action`: `Init` is separate from `Step`, because it runs once, when the App is constructed.
