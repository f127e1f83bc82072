# dukat: layer list, byte helpers, collision demo and text meshes in Dafny

This project models five small, self-contained parts of the dukat 2D/3D game framework and proves what they promise.

- **Render layers** (`renderlayers.dfy`, module `RenderLayers`). The 2D renderer keeps its layers in a list sorted by priority. `create_layer` inserts a new layer in front of the first layer of strictly greater priority, or appends it, so layers of equal priority stay in creation order. `destroy_layer`, `get_layer`, `add_to_layer` and `remove_from_layer` go by string id and act on the first layer with that id. An unknown id changes nothing; the add and remove calls then log a warning. `Renderer2` is a class whose `layers` sequence the methods reassign. `Valid()` says the list is sorted and holds no layer twice.
- **System utilities** (`sysutil.dfy`, module `SysUtil`). This covers FourCC packing (`mc_const`), file-extension extraction (`get_extension`) and little-endian decoding (`read_short`, `read_int`). A 32-bit C++ value is kept as its bit pattern, a natural number below 2^32. `<<` and `|` are written out (`Shl32`, `BitOr`), so each function body follows the C++ expression, wrap-around included. `rfind` returns `npos` (2^64 - 1) when there is no match, and `npos + 1` wraps to 0 modulo 2^64.
- **Collision demo** (`collisiondemo.dfy`, module `CollisionDemo`). This is the demo scene's own logic. Its constructor builds four static walls around the screen and spawns 50 boxes. A game object bounces by reversing one velocity component when it gets a collision message. `remove_object` and `add_object` drop and add objects, the keyboard toggles animation and the grid, and `update` moves the boxes. The collision manager is used only as a registry of live bodies: create, destroy and count. `Valid()` says its live bodies are exactly the four walls plus one body per object, with no body twice. From that, `body_count()` is 4 plus the number of objects.
- **Text mesh instance** (`textmesh.dfy`, module `TextMesh`). `set_text` rebuilds the mesh only when the text changes. `set_alpha` and `get_alpha` work on the ambient alpha of the material, and `set_size` sets a uniform scale. The mesh builder is outside the model. Each call to it is recorded in the ghost field `rebuilds`.
- **Mesh group** (`meshgroup.dfy`, module `MeshGroups`). This is a container of mesh instances with append, indexed get and a size truncated to `unsigned int`.

`geometry.dfy` (module `Geometry`) holds the value types shared by the other modules: vectors, boxes and colours. Coordinates are `real`.

## Model

| member | source | states |
|---|---|---|
| `SysUtil.Promote` | include/dukat/sysutil.h:17 | Promoting a signed `char` to `int` sign-extends it. The 32-bit pattern keeps the char's low byte, and a non-negative char keeps its value. A negative char c becomes 2^32 + c, so bits 8 to 31 are all set |
| `SysUtil.McConstAscii` | include/dukat/sysutil.h:15-18 | For ASCII chars, `mc_const(a,b,c,d)` is a*2^24 + b*2^16 + c*2^8 + d; reading its bytes from the most significant gives back a, b, c, d |
| `SysUtil.McConstSmearsHighBit` | include/dukat/sysutil.h:17 | As written, a last char of '\xFF' gives 0xFFFFFFFF whatever the first three chars are, so the top byte is 0xFF and not the first char |
| `SysUtil.McConstBytesRoundTrip` | include/dukat/sysutil.h:15-18 | Packing each char as an unsigned byte gives the big-endian sum of the four bytes; each char is recovered modulo 256, and the result equals `mc_const` on ASCII |
| `SysUtil.RFind` | include/dukat/sysutil.h:22 | `rfind('.')` is `npos` exactly when there is no '.'; otherwise it is the index of a '.' with no '.' after it |
| `SysUtil.GetExtension` | include/dukat/sysutil.h:20-23 | The result is a suffix of the name and has no '.'. When the name has a '.', a '.' comes right before the result. A name with no '.' is returned whole, because `npos + 1` wraps to 0 |
| `SysUtil.ExtensionOfTrailingDot` | include/dukat/sysutil.h:22 | A name ending in '.' has an empty extension |
| `SysUtil.ExtensionRoundTrip` | include/dukat/sysutil.h:20-23 | `get_extension(base + "." + ext)` is `ext` for every `ext` without '.' |
| `SysUtil.ReadShortValue` | include/dukat/sysutil.h:25-28 | `read_short` is p[0] + 256*p[1], so it is below 65536 |
| `SysUtil.ReadIntValue` | include/dukat/sysutil.h:30-33 | `read_int` is p[0] + 2^8*p[1] + 2^16*p[2] + 2^24*p[3], even when the shift of p[3] leaves the signed `int` range |
| `SysUtil.ReadIntHalves` | include/dukat/sysutil.h:25-33 | The low 16 bits of `read_int(p)` are `read_short(p)`, and the high 16 bits are `read_short(p + 2)` |
| `RenderLayers.InsertionPoint` | src/renderer2.cpp:89-102 | The insert position comes after every layer of priority at most p and sits at the first layer of greater priority, or at the end when there is none |
| `RenderLayers.FindLayer` | src/renderer2.cpp:124-131 | The search result is the index of the first layer with the id, or the list length when no layer has it |
| `RenderLayers.InsertByPriorityShape` | src/renderer2.cpp:84-103 | Creating a layer grows the list by one and puts the new layer at the insert position; taking it out again gives the old list in its old order |
| `RenderLayers.InsertByPriorityStable` | src/renderer2.cpp:89-97 | Every layer in front of the new one has priority at most its own, so insertion is stable among equal priorities; in a sorted list every layer behind it has a strictly greater priority |
| `RenderLayers.InsertByPriorityAppends` | src/renderer2.cpp:99-102 | When no layer has a greater priority, the new layer is appended |
| `RenderLayers.InsertByPriorityKeepsSorted` | src/renderer2.cpp:89-102 | Creating a layer keeps a list sorted by non-decreasing priority sorted |
| `RenderLayers.InsertByPriorityDistinct` | src/renderer2.cpp:84-103 | A newly made layer is not yet in the list, so the list still holds no layer twice |
| `RenderLayers.RemoveFirstShape` | src/renderer2.cpp:106-115 | `destroy_layer` removes exactly the first layer with the id and keeps the others in order; with no such layer the list is unchanged |
| `RenderLayers.RemoveFirstKeepsSorted` | src/renderer2.cpp:106-115 | Destroying a layer keeps the list sorted |
| `RenderLayers.RemoveFirstUnknown` | src/renderer2.cpp:111-114 | An id that no layer has leaves the list as it was |
| `RenderLayers.RemoveFirstDistinct` | src/renderer2.cpp:106-115 | Destroying a layer keeps the list free of repeats, and the destroyed layer is gone from it |
| `RenderLayers.Renderer2.CreateLayer` | src/renderer2.cpp:82-104 | Returns a fresh layer with the given id, priority and parallax. The new list is the old one with that layer inserted by priority, and it stays sorted and free of repeats |
| `RenderLayers.Renderer2.DestroyLayer` | src/renderer2.cpp:106-115 | The new list is the old one without its first layer with the id |
| `RenderLayers.Renderer2.DestroyLayers` | src/renderer2.cpp:117-120 | The list is empty |
| `RenderLayers.Renderer2.GetLayer` | src/renderer2.cpp:122-132 | Returns null exactly when no layer has the id; otherwise returns the first layer whose id matches. The list is not changed |
| `RenderLayers.Renderer2.AddToLayer` | src/renderer2.cpp:134-145 | A warning is reported exactly when no layer has the id. Only the first layer with the id gets the sprite, and every other layer is unchanged |
| `RenderLayers.Renderer2.RemoveFromLayer` | src/renderer2.cpp:147-158 | A warning is reported exactly when no layer has the id. Only the first layer with the id loses the sprite, and every other layer is unchanged |
| `CollisionDemo.CollisionManager2.CreateBody` | examples/collision/collisionapp.cpp:146 | `create_body` returns a fresh body with the requested `dynamic` flag, with no owner, and adds it to the live bodies |
| `CollisionDemo.CollisionManager2.DestroyBody` | examples/collision/collisionapp.cpp:136 | `destroy_body` removes exactly that body from the live bodies |
| `CollisionDemo.BounceCases` | examples/collision/collisionapp.cpp:188-198 | If this body is dynamic and solid and the other is solid: a normal with an x component negates `dir.x` and keeps `dir.y`; otherwise `dir.y` is negated and `dir.x` kept. In every other case `dir` is unchanged |
| `CollisionDemo.BounceInvolution` | examples/collision/collisionapp.cpp:188-198 | Receiving the same collision twice restores `dir`, and the speed along each axis is never changed |
| `CollisionDemo.GameObject.Receive` | examples/collision/collisionapp.cpp:181-201 | A collision message applies the bounce rule to `dir` using the two bodies' flags and the contact normal; any other message leaves `dir` unchanged |
| `CollisionDemo.GameObject.constructor` | examples/collision/collisionapp.cpp:170-174 | The object keeps the given direction and body and becomes the body's owner; the body's box and flags are not changed |
| `CollisionDemo.ObjectBoxShape` | examples/collision/collisionapp.cpp:145-148 | A new object's box is centred on its position and is `2 * size` across on both axes; it is well formed exactly when `size >= 0` |
| `CollisionDemo.WallLayout` | examples/collision/collisionapp.cpp:33-41 | On a screen at least 32 units wide and high, the four walls are well formed and lie on the screen. They touch only along edges, and none of them reaches into the area inside them |
| `CollisionDemo.CreateWalls` | examples/collision/collisionapp.cpp:33-41 | Creates four distinct static bodies, north, east, south and west, with the wall boxes, and adds them to the live bodies |
| `CollisionDemo.CollisionScene.constructor` | examples/collision/collisionapp.cpp:9-45 | Animation and the grid start on. The screen half-size is half the window. After the walls, 50 objects have the spawned directions and boxes, and every object owns its body, which is dynamic |
| `CollisionDemo.CollisionScene.AddObjects` | examples/collision/collisionapp.cpp:44-45 | The construction loop adds one object per spawn, in order, each with the spawned direction and box and a dynamic body that it owns, and keeps the scene valid |
| `CollisionDemo.CollisionScene.BodyCountIsObjectsPlusWalls` | examples/collision/collisionapp.cpp:67 | The body count shown on screen is always 4 walls plus one per object |
| `CollisionDemo.CollisionScene.AddObject` | examples/collision/collisionapp.cpp:141-150 | Appends one new object with the given direction. Its fresh dynamic body is owned by it, has a box centred on the position with half-extent `size`, and is now live. Earlier objects and their boxes are kept |
| `CollisionDemo.CollisionScene.RemoveObject` | examples/collision/collisionapp.cpp:132-139 | With no objects, nothing changes. Otherwise the last object's body is destroyed and exactly the last object is removed; the earlier ones are kept in order |
| `CollisionDemo.CollisionScene.Update` | examples/collision/collisionapp.cpp:158-165 | While animating, every object's box moves by `dir * delta`; when not animating, no box changes |
| `CollisionDemo.CollisionScene.HandleKeyboard` | examples/collision/collisionapp.cpp:101-130 | Escape ends the game and Space toggles `animate`. 'g' toggles `show_grid` and sets the debug flags to bodies plus grid exactly when the grid is on. '-' drops the last object and destroys its body, and does nothing when there are no objects. '=' appends a fresh object made from the spawn values, owning a fresh body that becomes live. Other keys change nothing |
| `TextMesh.SetTextEffect` | src/dukat/textmeshinstance.cpp:7-15 | After `set_text(t)` the text is `t`. The mesh is rebuilt only if the text changed, and then exactly once, from `t` at the current width and height |
| `TextMesh.SetTextIdempotent` | src/dukat/textmeshinstance.cpp:7-15 | Two calls with the same text have the effect of one, rebuilds included |
| `TextMesh.TextMeshInstance.SetText` | src/dukat/textmeshinstance.cpp:7-15 | The instance's text, size and rebuild record change as one `set_text` step; material and scale are kept |
| `TextMesh.TextMeshInstance.SetAlpha` | src/dukat/textmeshinstance.cpp:17-28 | Afterwards `get_alpha()` returns the alpha. All other material components and the rest of the instance are kept |
| `TextMesh.TextMeshInstance.SetSize` | src/dukat/textmeshinstance.cpp:30-34 | All three scale components become `size`; text and material are kept |
| `MeshGroups.MeshGroup.constructor` | src/dukat/meshgroup.h:23 | A new group is in the scene stage and has no instances |
| `MeshGroups.MeshGroup.Size` | src/dukat/meshgroup.h:29 | `size()` fits an `unsigned int` and equals the instance count while the count fits |
| `MeshGroups.MeshGroup.AddInstance` | src/dukat/meshgroup.h:26-29 | Appends one fresh instance and returns it, keeping the earlier ones. While the count fits an `unsigned int`, `size()` grows by one and `get_instance(size() - 1)` is the new instance |

## Left out

- `CollisionManager2` internals are not part of this model: the spatial index, the broad and narrow phases, contact normals, the box-check counter, `get_bodies` hit-testing and `contact_count`. Only the registry surface the demo uses is modelled. The contact normal reaches `Receive` as part of the message.
- `CollisionDemo.SOLID_BY_DEFAULT`: the body type's header is not part of this model. A new body is taken to be solid, since the demo never sets the flag and its bounces against the walls need it.
- `RenderLayers.RenderLayer2.Add` and `Remove`: `RenderLayer2::add` and `remove` are not part of this model. A layer's contents are abstracted to a set of sprites, so their order and any duplicates are not modelled.
- Event subscription and unsubscription of game objects, the click handler, the timers that refresh the info and debug texts, the cursor sprite, and `Scene2::update` are not modelled; all are callbacks into code outside the model.
- `add_object` draws its direction, position and size at random. They are parameters (`Spawn`) here, and the constructor takes the 50 spawns.
- Floating point is modelled as exact `real` arithmetic. Rounding in `update`'s position step and in the box corners is not captured.
- `set_size` calls `transform.update()`, which rebuilds the model matrix. That matrix math is not modelled, and neither is `read_float`'s reinterpretation of a `uint32_t` as a `float`.
- `TextMesh.Material`: the material type's declaration is not part of this model. It is represented by four colours, and `set_alpha` is shown to touch only the ambient alpha.
- `MeshGroups.MeshGroup.constructor` leaves `visible` unset, as the source does; `bb` and `mat_model` are not modelled.
- The GL and SDL work of the renderer is not modelled: construction, buffer setup, `set_camera`, `render` and `update_uniforms`. The same goes for the renderer, camera, application loop, timer manager and the declaration-only headers; none of them hold the modelled logic.
- `swape32`, `swape16`, `read_pstring`, `write_pstring`, `compute_hash` and `save_screenshot` have only declarations in the header and are not modelled.
- `char` is taken to be signed. Where `char` is unsigned, `mc_const` computes what `SysUtil.McConstBytes` does, and the finding below does not arise.
- `SysUtil.McConst`: a left shift of a negative promoted char (`a << 24` with `a < 0`) is undefined behaviour before C++20. The model gives it the C++20 result, the bit pattern modulo 2^32.
- `RenderLayers.InsertionPoint`: priorities are `real`, so NaN is not modelled. A NaN priority is never greater than another, so `create_layer` appends a new NaN layer, and its scan passes over any NaN layer already in the list. The other layers stay in order among themselves, but the list as a whole is no longer sorted under `<=`.
- `CollisionDemo.Bounce`: the normal's components are `real`, so NaN is not modelled. A NaN `normal.x` compares unequal to 0, so `receive` would negate `dir.x`.
- The `size_t` and `npos` limits of `std::string` are explicit requirements (`|filename| < NPOS`), since no string can reach that length.

## Findings

| source | as written | input that shows it | evidently intended | confidence | as-written member | corrected member |
|---|---|---|---|---|---|---|
| include/dukat/sysutil.h:17 | each `char` is promoted to `int` with sign extension before `<<` and `\|`, so a char at or above 0x80 sets all the bits above its own byte | `mc_const('A', 'B', 'C', '\xFF')` is 0xFFFFFFFF, not 0x414243FF | each char fills exactly its own byte of the FourCC | medium: holds where `char` is signed, and FourCCs are usually ASCII; not executed | `SysUtil.McConstSmearsHighBit` | `SysUtil.McConstBytesRoundTrip` |
