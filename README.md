# Panorama viewer core, modelled in Dafny

The viewer shows a 360° video on the inside of a sphere. The user looks around by dragging the mouse. This project models and proves the three parts of `panorama.js` that compute something:

- **Sphere mesh builder** (`generateSphere(Y_SEGMENTS, X_SEGMENTS)`), in `sphere_mesh.dfy`, module `SphereMesh`.
  - Nested loops visit every grid point `(y, x)` with `0 <= y <= Y` and `0 <= x <= X`.
  - Each visit pushes three position components, two texture coordinates and six triangle indices.
  - The method `GenerateSphere` keeps those loops. It is proved equal to `SphereSpec`, the row-major concatenation (`Grid`) of the chunk each visit pushes.
  - Lemmas about `SphereSpec` then state the counts, the layout, the texture-coordinate values and the index pattern. For a square grid (`X == Y`, as at the only call site) they also show exactly which visits push indices outside the vertex array.
  - The vertex position depends on `Math.sin`/`Math.cos`. It is an opaque parameter `vertexAt(y, x)`: the model tracks where each value goes and how many there are, never the value itself.
- **Drag rotation**, in `drag_rotation.dfy`, module `DragRotation`. It covers the mousedown, mousemove and mouseup handlers and the five module-level variables they update.
  - The class `ViewControl` holds those variables as fields. Its three methods are proved to perform `Step`, the pure transition function on a `ViewState` value.
  - Lemmas about `Run` (a sequence of `Step`s) give the clamp invariant and the drag arithmetic.
  - Angles are `real`. `HALF_PI` is the exact value of the double that `Math.PI / 2` evaluates to.
- **`isPowerOf2`**, in `power_of_two.dfy`, module `PowerOfTwo`. It is a `bv32` function, because JavaScript's `&` works on 32-bit two's-complement integers.

The intended mesh has two triangles per grid cell: `6·Y·X` indices, all below `(Y+1)·(X+1)`. The code as written differs:

- The index pushes sit inside both inclusive loops.
- The row stride is `Y_SEGMENTS + 1`.

The model follows the code. See "## Findings".

A zero segment count is meant to be a configuration error. The code divides by zero instead. The model makes `Y, X >= 1` a precondition.

## Model

| member | source | states |
|---|---|---|
| `SphereMesh.GenerateSphere` | panorama.js:237-285 | The nested loops produce exactly the row-major grid of per-visit chunks (`SphereSpec`): `3·(Y+1)·(X+1)` position values, `2·(Y+1)·(X+1)` texture values and `6·(Y+1)·(X+1)` indices |
| `SphereMesh.PositionEmitter` | panorama.js:253-257 | What one visit `(y, x)` pushes onto `positions`: the three coordinates of the opaque vertex `vertexAt(y, x)` |
| `SphereMesh.TexCoordEmitter` | panorama.js:260 | What one visit `(y, x)` pushes onto `textureCoords`: `x/X`, then `y/Y` |
| `SphereMesh.IndexEmitter` | panorama.js:263-269 | What one visit `(y, x)` pushes onto `indices`: the six expressions with row stride `Y+1`, in source order |
| `SphereMesh.SphereSpec` | panorama.js:245-285 | The three arrays `generateSphere` returns: each emitter concatenated over the visits in row-major order, `Y+1` rows of `X+1` points |
| `SphereMesh.GridLength` | panorama.js:245-248 | Two inclusive loops that push `w` values per visit push `w·cols·rows` values in total |
| `SphereMesh.GridAt` | panorama.js:245-248 | Value `j` of visit `(y, x)` is at flat position `w·(y·cols + x) + j`: the arrays are in row-major `(y, x)` order |
| `SphereMesh.SphereLengths` | panorama.js:245-269 | The returned arrays hold 3, 2 and 6 entries per grid point, counting the boundary row `y = Y` and column `x = X` |
| `SphereMesh.PositionAt` | panorama.js:245-257 | Entries `3k, 3k+1, 3k+2` hold the xyz of grid point `(y, x)`, where `k = y·(X+1) + x` |
| `SphereMesh.TexCoordAt` | panorama.js:245-260 | Pair `k` is `(x/X, y/Y)`. Both components lie in `[0, 1]`. `u = 0` when `x = 0` and `u = 1` when `x = X` |
| `SphereMesh.SeamNotMerged` | panorama.js:248-260 | In every row, the first and last vertices are distinct entries with `u = 0` and `u = 1`: the seam is not shared |
| `SphereMesh.QuadPattern` | panorama.js:263-269 | The six pushes of visit `(y, x)` are `a, a+s, a+1, a+1, a+s, a+s+1`, where `s = Y+1` and `a = y·s + x` |
| `SphereMesh.IndicesAt` | panorama.js:263-269 | The six indices stored for visit `(y, x)` follow that pattern, including for `x = X` and `y = Y` |
| `SphereMesh.SquareIterationInRange` | panorama.js:263-269 | For `X == Y`: every index of visit `(y, x)` is below `(Y+1)·(X+1)` iff `y < Y` and `(y, x) != (Y-1, X)` |
| `SphereMesh.SquareMeshIndexOutOfRange` | panorama.js:245-269 | For `X == Y`, the last index pushed at visit `(Y-1, X)` equals the vertex count. It names a vertex that does not exist |
| `SphereMesh.StrideMismatch` | panorama.js:263-264 | For every `Y != X`, the second index of the first triangle is `Y+1`, not vertex `(1, 0)` below the corner; when `Y < X` it is vertex `(0, Y+1)` of the first row |
| `SphereMesh.IndexBound` | panorama.js:263-269 | Every index pushed lies in `[0, (Y+1)² + X + 1]` |
| `SphereMesh.CallSiteIndicesFitUint16` | panorama.js:141 | For the call `generateSphere(60, 60)` (panorama.js:49), every index is below 65536, so the `Uint16Array` keeps every index unchanged |
| `SphereMesh.TriangulateCells` | panorama.js:263-269 | Corrected triangulation: two triangles per cell `y < Y, x < X` with row stride `X+1`, giving `6·Y·X` indices, all below `(Y+1)·(X+1)` |
| `DragRotation.Step` | panorama.js:63-91 | The three handlers as one transition on the five variables: mousedown arms and anchors; mousemove, only while dragging, adds `0.01·Δ` to both angles, clamps `viewRotationY` and re-anchors; mouseup disarms |
| `DragRotation.Run` | panorama.js:63-91 | The state after the handlers for a sequence of events have run one after another, in order |
| `DragRotation.Clamp` | panorama.js:81 | `max(-π/2, min(π/2, v))` lies in `[-π/2, π/2]`, leaves in-range values unchanged and maps out-of-range values to the nearer bound |
| `DragRotation.ClampIdempotent` | panorama.js:81 | Clamping twice is the same as clamping once |
| `DragRotation.ViewControl.constructor` | panorama.js:56-60 | Initial state: both angles 0, both anchors null, not dragging |
| `DragRotation.ViewControl.MouseDown` | panorama.js:63-68 | Arms dragging and sets the anchor to the event coordinates. The angles are unchanged. The pitch invariant holds |
| `DragRotation.ViewControl.MouseMove` | panorama.js:70-87 | Not dragging: no change. Dragging: adds `0.01·Δ` to both angles, clamps `viewRotationY` and moves the anchor. The pitch invariant holds |
| `DragRotation.ViewControl.MouseUp` | panorama.js:89-91 | Only clears `isDragging`. The angles and the anchor are unchanged |
| `DragRotation.MoveWhileReleased` | panorama.js:71 | A mousemove while not dragging changes no state |
| `DragRotation.MouseUpIdempotent` | panorama.js:89-91 | mouseup clears `isDragging`, keeps the angles and the anchor, and a second mouseup changes nothing |
| `DragRotation.MouseDownAnchors` | panorama.js:63-66 | mousedown arms dragging, sets the anchor to the event coordinates and keeps both angles |
| `DragRotation.RunKeepsPitchInRange` | panorama.js:78-81 | Every event sequence keeps `viewRotationY` in `[-π/2, π/2]`, however large the movements |
| `DragRotation.PitchAlwaysInRange` | panorama.js:56-91 | From the initial state, `-π/2 <= viewRotationY <= π/2` after any sequence of events |
| `DragRotation.DragTurnsByDisplacement` | panorama.js:73-84 | While dragging, a run of moves turns `viewRotationX` by `0.01 ×` (last pointer x − anchor x) |
| `DragRotation.DragFromMouseDown` | panorama.js:63-84 | After a mousedown at `x0` and then moves, `viewRotationX` has grown by `0.01 ×` (last x − `x0`) |
| `DragRotation.DragScenario` | panorama.js:63-84 | Press at (100, 100), then move to (200, 100): `viewRotationX = 1.0`, `viewRotationY = 0`, still dragging |
| `PowerOfTwo.IsPowerOf2` | panorama.js:230-232 | `(value & (value - 1)) == 0` on the 32-bit value, with 32-bit wrap-around of `value - 1` (so 0 yields true) |
| `PowerOfTwo.IsPowerOf2Iff` | panorama.js:230-232 | For `v != 0`: `isPowerOf2(v)` iff `v = 2^k` for some `k < 32` |
| `PowerOfTwo.PowersPass` | panorama.js:230-232 | Every 32-bit power of two passes the test |
| `PowerOfTwo.ZeroPasses` | panorama.js:230-232 | 0 passes the test, although no power of two is 0 |

## Left out

- WebGL context setup and shader compile/link (panorama.js:1-46, panorama.js:94-124): calls into the GPU API with no result to compute.
- `initBuffers` (panorama.js:127-148) only copies the arrays into GPU buffers. Only its `Uint16Array` bound is stated (`CallSiteIndicesFitUint16`).
- `loadTextures` and `loadTexture` (panorama.js:151-228): image and video element I/O, the 1×1 white placeholder and the self-rescheduling texture refresh. The video path always generates mipmaps and sets clamp-to-edge. The image path uses `isPowerOf2`, which is modelled on its own.
- `drawScene`, `render` and `cleanup` (panorama.js:288-384): floating-point projection and rotation matrices from the glMatrix library, which is not part of this model, and the endless `requestAnimationFrame` loop.
- Vertex coordinates (panorama.js:247-255): `theta`, `phi` and the `Math.sin`/`Math.cos` products are floating-point trigonometry. They become the parameter `vertexAt`, so unit length is not stated.
- The `console.log` dumps (panorama.js:276-278) and the `render()` calls inside the mouse handlers (panorama.js:67, panorama.js:86).
- Zero segment counts: the code divides by zero and yields NaN or Infinity. `Y, X >= 1` is a precondition.
- Floating point: angles, pointer coordinates and texture coordinates are exact reals. Double rounding of `0.01·Δ`, of the sums and of `x / X` is not modelled; `HALF_PI` is the exact value of the double `Math.PI / 2`, so the clamp bound itself is not approximated.
- `isPowerOf2` on a JavaScript number that is not an integer, or whose magnitude exceeds 2^53: the argument is taken to be the 32-bit value that `&` converts it to. JavaScript computes `value - 1` in double arithmetic before that conversion, and the two agree only for integers up to 2^53 (for `value = 2^54 + 4` JavaScript gives false, `IsPowerOf2(4)` gives true). The callers pass image dimensions, which are far below that.
- Event delivery and the DOM listeners: the handlers are methods that callers invoke one at a time, as the single-threaded event loop does.

## Findings

| source | as written | input that shows it | evidently intended | confidence | as-written member | corrected member |
|---|---|---|---|---|---|---|
| panorama.js:245-269 | The index pushes run on every visit `0 <= y <= Y, 0 <= x <= X`. For a square grid `X == Y` (the only call site), the last row and the last point of the row before it produce indices at or past the vertex count `(Y+1)·(X+1)` | `Y = X = 60` (the call site): visit `(59, 60)` pushes index 3721 = 61·61. Every visit with `y = 60` pushes indices of 3721 or more | Triangles only for cells `y < Y, x < X`: `6·Y·X` indices, all below `(Y+1)·(X+1)` | medium, not executed | `SphereMesh.SquareMeshIndexOutOfRange` | `SphereMesh.TriangulateCells` |
| panorama.js:263-269 | The row stride is `Y_SEGMENTS + 1`, but each row holds `X_SEGMENTS + 1` vertices | Any `Y != X`, e.g. `Y = 1, X = 2`: the first triangle uses vertex `Y+1` = 2, which is `(0, 2)`, instead of vertex `X+1` = 3, which is `(1, 0)` | Row stride `X_SEGMENTS + 1` | medium, not executed | `SphereMesh.StrideMismatch` | `SphereMesh.TriangulateCells` |
