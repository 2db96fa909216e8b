# Nexus galaxy and memory store — a Dafny model

Nexus shows a list of "memory" records as a 3D point cloud, a galaxy of
crystals. The user can hover a crystal to read its text, click it to fly the
camera to it, and ask free-text questions. A back end keeps the memory list.
It forwards each question to a language model, and it stores the memory that
the model's reply may carry.

This project models the algorithmic core of both sides and proves what each
part promises:

- **Back end** (`backend/main.py`), in modules `PyStrings`, `Records` and
  `MemoryStore`:
  - the reply parsing of the `/ask` handler: the `"MEMORISE:"` marker, the
    `"|"` split, whitespace stripping and the length guard;
  - the in-place append to the module-level memory list, with its
    length-derived id;
  - the memory context that is joined into the system prompt;
  - the default memory list.

  Python's `in`, `split`, `join` and `strip` are modelled with Python's
  semantics: leftmost non-overlapping split, and the full `str.isspace`
  character set for `strip`.
- **Front end** (`frontend/src/App.jsx`), in modules `Layout`, `Galaxy`,
  `Typewriter`, `Interface` and `Scene`:
  - the id-to-position layout;
  - the proximity graph, a nested loop over ordered index pairs;
  - the record set that each `/galaxy` fetch replaces;
  - the typewriter reveal: interval ticks, reset and cancellation;
  - the `askNexus` controller and the refresh counter;
  - the hover handlers and the scanner line;
  - `focusOnStar`/`resetView` and click propagation.

Code that updates state step by step is modelled as classes with methods:
the memory list, the typewriter, the components' state and the camera
controls. Code that only computes a value is modelled as functions with
lemmas: parsing, layout, the connection specification, the scanner line and
the camera targets. Where the code works by loops (the connection builder),
the model has a method with loop invariants, and that method is proved equal
to a specification function.

Inputs from outside become parameters:

- the language-model call is a function from (memory context, question) to
  a reply or an exception message;
- `fetch` outcomes are `Option`/`FetchOutcome` values;
- `Math.sin`/`Math.cos` are parameters `sin`, `cos: real -> real`;
- the file read by `load_memories` is a constructor parameter;
- `setInterval` firings are explicit `Tick` calls.

The model follows the code where it may surprise a reader:

- The code has no guard against a second submission while a question is
  pending. `Interface.Submit` checks only for an empty question.
- The question is put into the URL without URL encoding (`AskUrl`).
- Each close pair is emitted in both orientations. `ClosePairsSymmetric`
  states this.
- Connections are built over list indices, not over distinct ids. Two
  records with the same id are still distinct indices and get a zero-length
  line.
- The camera model keeps only the commanded look-at arguments. The
  camera's animation between commands is left out.

## Model

| member | source | states |
|---|---|---|
| `PyStrings.Find` | backend/main.py:91 | the result is the leftmost index where the separator occurs; `None` exactly when it occurs nowhere |
| `PyStrings.Contains` | backend/main.py:91 | Python's `in`: true exactly when the separator occurs at some index of the string |
| `PyStrings.UpTo` | backend/main.py:93-94 | the text before the first separator: a prefix of the string that holds no occurrence, followed by an occurrence at its length when the separator occurs, and the whole string when it does not |
| `PyStrings.After` | backend/main.py:93 | the string is rebuilt as the text before the first separator, the separator, then the result |
| `PyStrings.Split` | backend/main.py:93 | `str.split`: at least one piece; two or more exactly when the separator occurs; no piece contains it; piece 0 is the text before the first occurrence and piece 1 the text between the first and second |
| `PyStrings.JoinSplit` | backend/main.py:93 | joining the pieces of a split with the same separator rebuilds the string (nothing is lost by the split) |
| `PyStrings.Join` | backend/main.py:46 | `str.join`: no parts give "", otherwise the result starts with the first part |
| `PyStrings.SplitJoin` | backend/main.py:46 | with a one-character separator absent from every part, splitting a join gives back the parts |
| `PyStrings.TrimStart` | backend/main.py:94-95 | the result is a suffix of the input, only whitespace is removed, and it does not start with whitespace |
| `PyStrings.TrimEnd` | backend/main.py:94-95 | the result is a prefix of the input, only whitespace is removed, and it does not end with whitespace |
| `PyStrings.Strip` | backend/main.py:94-95 | `str.strip`: the result is a slice of the input, only whitespace lies outside it, and it neither starts nor ends with whitespace |
| `PyStrings.StripIdempotent` | backend/main.py:94-95 | stripping a stripped string changes nothing |
| `Records.ConsecutiveIdsAreUnique` | backend/main.py:99 | ids 1..n in order are pairwise distinct |
| `MemoryStore.DefaultIdsConsecutive` | backend/main.py:32-35 | the default list has two records with ids 1 and 2 in order |
| `MemoryStore.ParseReply` | backend/main.py:88-102 | a reply without `"MEMORISE:"` is the answer unchanged with nothing to store; a memory to store only comes from a reply with the marker and is longer than 3 characters |
| `MemoryStore.NoMarkerPassesThrough` | backend/main.py:89-91 | a reply without `"MEMORISE:"` is the answer unchanged and stores nothing |
| `MemoryStore.MissingBarPassesThrough` | backend/main.py:93-102 | a marker whose chunk (text up to the next marker or the end) has no `"|"`: the index error is swallowed, the whole raw reply is the answer, nothing is stored |
| `MemoryStore.MarkedReplyParts` | backend/main.py:93-98 | with a bar in the chunk, the memory text is the stripped text before the first bar and the answer the stripped text between the first and second bar; the memory is kept exactly when longer than 3 characters |
| `MemoryStore.StoredMemoryShape` | backend/main.py:91-98 | a stored memory comes only from a reply with the marker and a bar in its chunk, is longer than 3 characters and is already stripped |
| `MemoryStore.ParsedResponseIsStripped` | backend/main.py:95 | the parsed answer carries no surrounding whitespace |
| `MemoryStore.MemoryContext` | backend/main.py:46 | an empty list gives an empty context; otherwise the context starts with the line `"- " + text` of the first memory |
| `MemoryStore.ContextHasOneLinePerMemory` | backend/main.py:46 | the prompt's memory context splits on newlines into one `"- " + text` line per memory, in list order, when no text contains a newline |
| `MemoryStore.NewMemory` | backend/main.py:99 | the appended record has the parsed text and category "ai"; when ids are 1..n its id differs from every existing id and the list with it appended has ids 1..n+1 |
| `MemoryStore.AppendKeepsIdsConsecutive` | backend/main.py:99 | appending with id `len + 1` keeps ids 1..n+1 consecutive and unique |
| `MemoryStore.Store.constructor` | backend/main.py:25-41 | the list is the stored one when the file could be read, otherwise the default list |
| `MemoryStore.Store.AskNexus` | backend/main.py:44-107 | a provider exception answers `"ERREUR : " + message` and leaves the list unchanged; a reply answers its parsed response and appends exactly one record `{len+1, text, "ai"}` at the end when a memory was parsed, otherwise nothing; consecutive ids stay consecutive |
| `Layout.PositionFor` | frontend/src/App.jsx:70-74 | with sine and cosine in [-1, 1], the position of an id lies in [-6,6] x [-4,4] x [-6,6] |
| `Layout.PlacedInBox` | frontend/src/App.jsx:68-75 | with sine and cosine in [-1, 1], every placed record lies in [-6,6] x [-4,4] x [-6,6] |
| `Layout.Place` | frontend/src/App.jsx:68-75 | the layout keeps the list length and every record's fields in order, each record sits at the position of its id, and records with equal ids get equal positions |
| `Layout.PlaceDependsOnIdsOnly` | frontend/src/App.jsx:68-75 | two lists with the same ids in the same order get the same positions, whatever their texts |
| `Galaxy.CloseSymmetric` | frontend/src/App.jsx:84 | closeness (distance below 4) is symmetric |
| `Galaxy.ClosePairsExact` | frontend/src/App.jsx:81-88 | sound and complete: (i, j) is emitted exactly when i and j are distinct indices whose positions are less than 4 apart |
| `Galaxy.ClosePairsSymmetric` | frontend/src/App.jsx:83-85 | every close pair is emitted in both orientations |
| `Galaxy.ClosePairsOrdered` | frontend/src/App.jsx:83-85 | pairs are emitted in strictly increasing i-major, j-minor order, so none twice in one orientation |
| `Galaxy.Connections` | frontend/src/App.jsx:81-89 | one line per emitted index pair, and every line joins two points less than 4 apart |
| `Galaxy.ConnectionCount` | frontend/src/App.jsx:83-85 | n stars give at most n(n-1) connections |
| `Galaxy.ConnectionsExact` | frontend/src/App.jsx:81-89 | a line is a connection exactly when it joins the positions of two distinct close stars; no line joins points 4 or more apart |
| `Galaxy.BuildConnections` | frontend/src/App.jsx:81-89 | the nested loop returns exactly the specified connections, in emission order |
| `Galaxy.Galaxy.constructor` | frontend/src/App.jsx:60-65 | mounting starts with no records and issues the first fetch |
| `Galaxy.Galaxy.Rerender` | frontend/src/App.jsx:63-79 | a fetch is issued exactly when the refresh trigger changed |
| `Galaxy.Galaxy.Receive` | frontend/src/App.jsx:66-78 | a fetched list replaces the record set with its layout; a failed fetch leaves it unchanged |
| `Galaxy.Galaxy.CurrentConnections` | frontend/src/App.jsx:81-89 | the lines drawn are the connections of the current record set |
| `Typewriter.CharAt` | frontend/src/App.jsx:14 | `charAt` gives the one character at the index, or "" past the end |
| `Typewriter.Typewriter.constructor` | frontend/src/App.jsx:8-13 | mounting shows "", sets the counter to 0 and starts the interval; the display is a prefix of the text |
| `Typewriter.Typewriter.Tick` | frontend/src/App.jsx:13-17 | a running tick appends `charAt(index)`, increments the counter and stops exactly when it equals the length; a cleared interval changes nothing; the display stays the prefix of length `index` |
| `Typewriter.Typewriter.SetText` | frontend/src/App.jsx:10-19 | a new text cancels the old interval and restarts from ""; the same text changes nothing |
| `Typewriter.Typewriter.Unmount` | frontend/src/App.jsx:18 | unmounting clears the interval |
| `Typewriter.Advance` | frontend/src/App.jsx:13-17 | n ticks in closed form: the counter moves to min(index + n, length) and the display is the prefix that long; for an empty text the interval never stops and the display stays "" |
| `Typewriter.RevealAfter` | frontend/src/App.jsx:8-21 | after k ticks the display is the first min(k, length) characters; a non-empty text stops after exactly length ticks; an empty one never stops and shows "" |
| `Typewriter.Supersede` | frontend/src/App.jsx:10-19 | after switching to a different text, only that text's prefixes are shown, with nothing of the old text |
| `Interface.AskUrl` | frontend/src/App.jsx:123 | the request URL ends with the question exactly as typed |
| `Interface.ScannerLine` | frontend/src/App.jsx:181-183 | a hovered text shows as ">> " + its first min(60, length) characters + "..."; no or empty hover text shows the scanning banner |
| `Interface.ChatText` | frontend/src/App.jsx:185-188 | a typewriter is mounted exactly for a non-empty response, so it never receives an empty text |
| `Interface.App.constructor` | frontend/src/App.jsx:238-239 | no hover text and refresh counter 0 at start |
| `Interface.App.TriggerRefresh` | frontend/src/App.jsx:240 | the refresh counter rises by exactly 1 |
| `Interface.App.PointerOver` | frontend/src/App.jsx:40 | hover-enter sets the pointer cursor and the hover text to the crystal's text |
| `Interface.App.PointerOut` | frontend/src/App.jsx:41 | hover-leave sets the default cursor and the hover text to null |
| `Interface.Interface.constructor` | frontend/src/App.jsx:112-114 | empty question, no response, not loading |
| `Interface.Interface.Edit` | frontend/src/App.jsx:193 | typing replaces the question |
| `Interface.Interface.Submit` | frontend/src/App.jsx:116-123 | an empty question issues no request and changes nothing; otherwise loading starts, the response is cleared and the request for the question is issued |
| `Interface.Interface.Complete` | frontend/src/App.jsx:124-130 | an answer becomes the response and raises the refresh counter by 1; a failure shows "Connexion impossible." with the counter unchanged; loading ends false and the question "" on both paths |
| `Interface.Interface.AskNexus` | frontend/src/App.jsx:116-131 | the whole exchange: empty input changes nothing; otherwise one request, the response or failure text, the counter +1 exactly on success, loading false and question "" |
| `Scene.FocusOn` | frontend/src/App.jsx:206-214 | the camera looks at the star from 2.5 units further along z |
| `Scene.CommandsWithinLimits` | frontend/src/App.jsx:208-229 | both the focus and the reset place the camera within the controls' distance limits 1..30 |
| `Scene.Fired` | frontend/src/App.jsx:42 | a click runs the handlers of the hits nearest first, up to and including the first crystal, which stops propagation |
| `Scene.LastCommand` | frontend/src/App.jsx:216-225 | the nearest crystal hit wins the camera and the background reset does not also fire after it; background alone resets to (0,0,12) looking at the origin |
| `Scene.Scene.constructor` | frontend/src/App.jsx:245 | the camera starts at the default view before the controls mount |
| `Scene.Scene.ControlsMounted` | frontend/src/App.jsx:204-229 | once `CameraControls` mounts, the ref is set and the camera commands take effect |
| `Scene.Scene.FocusOnStar` | frontend/src/App.jsx:206-214 | with controls mounted the camera command is the focus on the star; otherwise nothing |
| `Scene.Scene.ResetView` | frontend/src/App.jsx:216-220 | with controls mounted the camera command is the default view; otherwise nothing |
| `Scene.Scene.Click` | frontend/src/App.jsx:42 | the camera ends on the command of the last handler the click ran |

## Left out

- Rendering: Three.js and react-three-fiber drawing, `Float`, `Stars`,
  bloom, lights, fog and styles. The `useFrame` rotation and pulse
  animations depend on elapsed time and `Math.random()`.
- The galaxy group's slow rotation (`rotation.y` grows every frame) is left
  out. It does not change any camera command: the code hands the unrotated
  layout position to `focusOnStar` and uses it as a world position, and the
  model does the same. Only the drawn crystal moves, so as the galaxy turns
  the camera aims at the point where the crystal sat at angle 0, not where
  it is drawn.
- Floating point: `Math.sin`/`Math.cos` are parameters, coordinates are
  reals, and `distanceTo(q) < 4` is compared as squared distance < 16.
  IEEE rounding is not modelled.
- Network and JSON: `fetch` results are parameters. A reply body without a
  string `response` field is not modelled. Neither is the galaxy fetch's
  `.catch` swallowing errors raised while mapping a non-list body.
- React scheduling: effects and timers are explicit method calls, and state
  updaters apply at once. An interleaving that React's batching could
  produce is not modelled.
- Typewriter.Typewriter.Tick: the tick reads `text.charAt(index)` at the
  moment it fires. The code passes React an updater that reads the shared
  `index` only when React runs it. If React defers that updater past the
  following `index++`, it reads the incremented index, so a character is
  skipped and "Hello" could show as "Hllo". `RevealAfter` and `Supersede`
  prove the display only under immediate application of the updater.
- MemoryStore.Store.AskNexus: requests are modelled as serialised, one
  atomic step each. FastAPI runs the plain `def` handler in a thread pool.
  Two overlapping requests can both read `len(MEMORIES)` (backend/main.py:99)
  before either appends, and then store the same id. The consecutive-id
  guarantee holds only for serialised requests.
- Hover propagation: `onPointerOver`/`onPointerOut` also stop propagation.
  Which crystal receives the hover when several overlap is not modelled.
- `e.preventDefault()` and `console.log` have no observable state in the
  model.
- The camera's animated transition and the distance clamp are not
  modelled. `CommandsWithinLimits` shows that the clamp never changes a
  command.
- Strings: both sides use Dafny strings. The front end's UTF-16 code units
  (`charAt`, `substring`, `length`) are treated as characters.
- Back-end infrastructure: FastAPI routing, CORS, uvicorn startup and
  reading the API key from the environment.
- The language-model call: the model name, temperature and token limit.
  The fixed instruction text of the system prompt is left out too; only
  its memory context is modelled.
- A reply whose `content` is `None` is not modelled.
- File I/O: the JSON file that `load_memories` reads is a constructor
  parameter. What `save_memories` writes, and any failure while writing,
  is not modelled.
- backend/brain.py is not part of this model. It wraps an embedding store
  whose behaviour is not visible without the library.
