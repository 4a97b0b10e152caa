# Tesseract wireframe: hypercube construction and segment buffer

This project models the integer and combinatorial core of a page that draws a
rotating 4-dimensional hypercube (a tesseract) as a three.js wireframe, and
proves what that core computes.

- `createHypercube(length)` lists the 2^n vertices of the n-cube, with
  coordinates in {-1, 1}. Bit j of index i selects +1 for coordinate j. It then
  lists the edges: every pair i < j whose vertices differ in exactly one
  coordinate, found by a counting loop. Last it lists the bounding planes:
  one (normal, constant) pair per (axis, vertex), built with a running dot
  product.
- `getPosition(vertices_3d, edges)` fills a new float buffer of 6 * |edges|
  slots. Edge i's start point goes at offset 6i and its end point at 6i + 3.
- The per-frame `update` writes the same slots into that same buffer in place
  after it rotates and projects the vertices.

Files, one module each:

- `bits.dfy` (`Bits`): powers of two and bit j of an index. `MaskHit` models
  the JavaScript test `i & Math.pow(2, j)`. JavaScript first truncates both
  operands to 32 bits, so `2^j` becomes 0 once j reaches 32. Coordinates 32
  and up are therefore always -1. The counting and characterisation lemmas
  hold for n <= 32 (`WordBits`).
- `cube.dfy` (`Cube`): the lists as functions. The vertices, a vertex, a
  normal and one axis's planes are sequence comprehensions. The edge and
  plane lists and the running counts grow prefix by prefix, the way the
  loops build them.
- `cube_facts.dfy` (`CubeFacts`): what the lists contain. The counting proofs
  split the (n+1)-cube on its top bit into two copies of the n-cube, which
  gives E(n+1) = 2 E(n) + 2^n.
- `hypercube.dfy` (`Hypercube`): the loops of `createHypercube`, written as
  methods over growing sequences. Each is proved equal to its function in
  `Cube`.
- `segments.dfy` (`LineSegments`): the buffer layout, the shared segment
  loop over an `array<real>`, `getPosition`, and the page's geometry as a
  class. The class keeps a fixed edge list and a buffer that is rewritten in
  place every frame.

The code does not validate `length`. The model follows the code: the
dimension is a `nat`, and there is no error path.

## Model

| member | source | states |
|---|---|---|
| `Bits.Pow2` | main.js:5 | `Math.pow(2, length)`, the vertex count, is at least 1 |
| `Bits.BitSetByDivision` | main.js:9 | bit j of i (the bit tested at main.js:9 when j < 32) is (i / 2^j) mod 2 |
| `Hypercube.GenerateVertices` | main.js:4-12 | returns exactly 2^n vertices, each of length n; coordinate j of vertex i is 1 exactly when `i & 2^j` is non-zero, and -1 otherwise, so every coordinate is in {-1, 1} |
| `Hypercube.ConnectAdjacent` | main.js:14-28 | the edge list equals `Cube.Edges`; it is in strictly increasing lexicographic order; an edge (a, b) is listed exactly when a < b < vertex count and the two vertices differ in exactly one of the n coordinates |
| `Hypercube.BoundingPlanes` | main.js:35-52 | the plane list equals `Cube.Planes` and has n * (vertex count) entries |
| `Hypercube.CreateHypercube` | main.js:3-55 | returns 2^n vertices and n * 2^n planes; the edges are strictly increasing; for n <= 32 there are n * 2^(n-1) edges (twice the edge count is n * 2^n), and (a, b) is an edge exactly when b < 2^n and b = a + 2^k for a bit k < n that is clear in a |
| `CubeFacts.VertexInjective` | main.js:6-11 | distinct indices below 2^n give distinct vertices (n <= 32) |
| `CubeFacts.EdgeMembership` | main.js:15-26 | (a, b) is in the edge list iff a < b < vertex count and the vertices differ in exactly one coordinate; so there are no self-loops and no edge out of range |
| `CubeFacts.EdgesIncreasing` | main.js:15-26 | the edges come in strictly increasing lexicographic order of (a, b), so none is repeated |
| `CubeFacts.EdgeCount` | main.js:14-28 | for n <= 32, twice the number of edges is n * 2^n: 0 edges for n = 0 and n * 2^(n-1) for n >= 1 |
| `CubeFacts.AdjacentIffFlip` | main.js:17-24 | vertices i and j of the n-cube differ in exactly one coordinate iff i XOR j is a single power of two 2^k with k < n |
| `CubeFacts.EdgeIffBitFlip` | main.js:14-28 | the edges from vertex a go exactly to a + 2^k, one for each bit k < n that is clear in a |
| `CubeFacts.FirstEdge` | main.js:15-26 | for n >= 1 the first edge listed is (0, 1) |
| `CubeFacts.PlanesLength` | main.js:36-52 | the plane list has n * (vertex count) entries |
| `CubeFacts.PlaneIndex` | main.js:36-51 | planes are axis-major: entry axis * (vertex count) + j is the plane for that axis through vertex j |
| `CubeFacts.DotNormal` | main.js:39-48 | the running constant after k coordinates is the number of +1 coordinates below k other than the axis, minus the axis coordinate once the axis has been passed |
| `CubeFacts.HypercubePlane` | main.js:36-51 | for axis i and vertex j: the normal has length n, component i is -1, every other component k is 1 if vertex j's coordinate k is 1 and 0 otherwise; the constant is the dot product of the normal with vertex j, which equals the number of other +1 coordinates minus vertex j's coordinate i |
| `LineSegments.LayoutLength` | main.js:191 | the buffer has 6 slots per edge |
| `LineSegments.LayoutSlots` | main.js:192-198 | slots 6i..6i+2 hold the start point of edge i and slots 6i+3..6i+5 its end point |
| `LineSegments.LayoutUnique` | main.js:192-198 | conversely, any buffer of 6 * |edges| slots that holds every edge's endpoints in those slots is the layout: the writes fix every slot |
| `LineSegments.CopyInto` | main.js:196-197 | `positions.set(point, offset)` overwrites exactly the slots offset..offset+|point|-1 with the point and keeps every other slot |
| `LineSegments.WriteSegments` | main.js:192-198 | after the loop the whole buffer equals the layout of the given points and edges, whatever it held before |
| `LineSegments.GetPosition` | main.js:190-200 | returns a new buffer of 6 * |edges| slots holding the layout |
| `LineSegments.LineGeometry.constructor` | main.js:247 | the page's buffer starts as `getPosition` of the first projection, and its length is 6 * |edges| |
| `LineSegments.LineGeometry.Update` | main.js:279-284 | the frame rewrite keeps the same buffer and length, and leaves exactly what `getPosition` would build for the new points, so nothing of the previous frame survives |
| `LineSegments.CubeFrame` | main.js:190-200 | for the n-cube's edges (1 <= n <= 32) the buffer has 3 * n * 2^n slots, and its first six slots are points 0 and 1 |
| `LineSegments.TesseractFrame` | main.js:237 | `createHypercube(4)` gives 32 edges, the first one (0, 1), and a 192-slot buffer |

## Left out

- The rotations `rotateXW`, `rotateYW`, `rotateZW` and `rotate` (main.js:82-149, 202-212) are left out. They are trigonometric floating-point matrices built through three.js `Matrix4`, whose semantics is not part of this model.
- `project` and `project4Dto3D` (main.js:152-188) are left out. They are a floating-point perspective divide through `Vector4.applyMatrix4`. `LineGeometry.Update` receives the projected points as a parameter.
- `createPerspectiveMatrix` (main.js:57-79) is left out. It is camera maths with `Math.tan` that feeds three.js.
- The `THREE.Vector4` conversion (main.js:30-33) is left out. It is a library wrapper. The model keeps the vertex list as integer sequences before that conversion.
- Float32 rounding of the `Float32Array` buffer is left out. The buffer holds reals, and only the placement of values is verified.
- A typed array's `set` throws when the source does not fit. `CopyInto` and `WriteSegments` instead require the fit (points of length 3, endpoints in range), as every caller in the page guarantees.
- A `length` that is negative or fractional is left out. The dimension is a `nat`.
- Dimensions 28 and above are left out. A list would pass 2^32 - 1 entries there, and `push` then throws a RangeError: the planes from n = 28 (main.js:50), the edges from n = 29 (main.js:25) and the vertices from n = 32 (main.js:11). So `createHypercube` throws for every n >= 28, while the model returns the three lists for every n.
- Mouse handling, scene, camera and renderer setup, the `requestAnimationFrame` loops and the `needsUpdate` flag (main.js:215-259, 287-299) are left out. They are DOM and render-loop plumbing.
- `Hypercube.CreateHypercube`: its edge count and bit-flip characterisation are stated only for n <= 32. That bound comes from the 32-bit bit test at main.js:9, and it covers every n at which the source returns (n <= 27).
