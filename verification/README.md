# Verified models of the TSorage front-end data structures and test-data generator

TSorage ships two minified JavaScript bundles under `hub/src/main/resources/swagger-ui` and a small Python generator
under `utils`. The bundles carry complete implementations of persistent collections, of promises, of a writable
stream, of several codecs and of caches. This project models those implementations and the generator in Dafny and proves
what they are meant to guarantee. The Scala services of the repository are not part of it.

Run `dafny verify dfyconfig.toml` in this directory to check it.

The bundles consist of a few very long lines, so a line number alone locates little. Below, "module n" is the webpack
module number, and the minified name of a function is given in parentheses where one file line holds many of them.

## What is modelled

**Persistent hash map** (module 0: `HashTrie*`, `HashMaps`, `HashMapIterator`, `Bits`). The five node kinds, lookup,
update with its two change flags, merging of leaves, the conversions between node kinds, and the explicit-stack
iterator. The hash is any function into 32-bit words, so collisions of any number are included. The result is a
refinement: any operations on the trie are the same operations on a plain map.

**The same map on the heap** (module 0: `Map*`, `Owners`). Nodes, and the key-value arrays of leaves, are heap objects; an
update edits what its owner may edit and copies the rest, loops included. Each update is proved to stand for the update
of the trie on values, and an editing session to change no other map if it removes nothing, or if the keys it can meet,
those of the map and of its own operations, have distinct hashes.

**Persistent vector** (module 0: `Vector*`). Nodes are heap objects with an owner; a node is edited in place when its owner
matches and copied otherwise. Operations at the end of the list (`set`, `push`, `pop`, `clear`, `setSize`, editing sessions)
are proved against a plain sequence whose elements may be absent, and an editing session is proved to change no list
published before it.

**Insertion-ordered map** (module 585 of `swagger-ui.js`: `Ordered*`). Entries are heap objects in a doubly linked list
beside a key index; removed entries keep links that lead an interrupted traversal back.

**Writable stream** (module 96: `Writable*`). A pure state machine over the moments at which user code runs, its
invariants over every run, and a class whose methods take exactly the machine's steps.

**Promises** (modules 341 and 348 of `swagger-ui.js`: `Promise*`, `Microtasks`). The same division: a state machine with thenables
that may do anything, and heap objects that take its steps. The counter of `Promise.all` is a machine of its own, for handlers
that are called early, late or repeatedly; `PromiseCombined` runs it on the promise machine, its handlers being reactions.

**Codecs**: UTF-8 both ways and its streaming decoder (modules 55 and 155), integers in bytes (module 55), base64
(module 232), the YAML binary type (module 431), and quoted YAML scalars with their folded lines and escapes (modules 439
and 420). `Utf8Table`, `Base64Alphabet`, `YamlFolding` and `YamlEscapes` state the formats in literal tables.

**Schedulers and caches**: the `nextTick` queue (module 31), the least-recently-used queue (417), the argument index
(404: the functions on values, and the nested arrays on the heap that refine them), and memoization (372 and 416).

**Tagset generator** (`create_test_data_cql_file.py`: `Tagsets`, `TagsetOrder`): every choice of some tags with a listed
value, once, in the order in which the loops first make it.

## Where the code does not do what one would expect

The code is modelled as it is. In these places a natural property fails, and the exact condition is proved instead.

- A list can show elements again that were cleared or cut off. `VectorStale.Resurrection` starts from the empty list:
  65 elements are pushed, one is popped, and indices 63 to 32 are set to `undefined`; one more push, and the 32 cleared
  elements are back. `VectorStale.Regrowth` pushes 97, sets the size to 33 and then to 100, and finds 32 of the elements cut
  off at indices that should be absent. Growing keeps the old elements exactly when the tail stays or survives its move into
  the tree (`VectorList.GrownKeeps`), and appends nothing but absent ones exactly when besides no element that was cut
  off is still there (`VectorList.GrowsPlain`). A run is safe as long as the last block of the list has a defined element
  whenever a push or set moves the tail (`VectorSession.RunFromEmpty`).
- An editing session of a map can change a map published before it, when two keys share a hash: removing one of two
  colliding keys leaves a leaf that shares the other key's array with the published node, and setting that key then
  writes to the shared array. For any nine keys two of which share a hash, `MapLeaks.LeakFromEmpty` makes such a map from the
  empty one and shows its own lookup before and after. No session that removes nothing does this, and none whose keys
  have distinct hashes (`MapIsolation.WithMutations`).
- In the insertion-ordered map a frozen key is searched along the list by loose equality, and so reaches its own binding
  exactly when no earlier live key is loosely equal to it (`OrderedWalks.FrozenLookup`; `OrderedWalks.FrozenMisses` is a
  lookup that ends at the wrong key).
- The UTF-8 encoder takes a byte budget of 0 for no budget at all (`Utf8Codec.BudgetExact`), and of two lead surrogates at
  the very end of a string it drops the last instead of replacing it (`Utf8Codec.LossyReplaces`).
- A base64 text whose padding starts where a quad starts is not refused: the quad before the padding is lost and two zero
  bytes are added (`Base64Alphabet.DecodedLetters`).
- The YAML encoder writes "AAAA" for no bytes, which is read back as three zero bytes; all other bytes come back
  (`YamlBinary.ResolvedBack`).
- The single-quoted YAML pair gives a string back exactly when it has no control character but tab
  (`YamlScalars.SingleExact`).
- A memoizer that files results under `String(argument)` answers correctly on all call sequences exactly when the function
  gives one result to all arguments with one id (`Memoizing.MemoizedIffRespects`).
- A tag without any value empties the list of tagsets, although choosing nothing would still be a partial assignment
  (`Tagsets.TagsetsComplete`).

## Model

| member | source | states |
|---|---|---|
| Bits.PopCountCounts | hub/src/main/resources/swagger-ui/swagger-ui-standalone-preset.js:1 | The parallel bit count (`se`) is the number of set bits of every 32-bit word. |
| Bits.IndexIsRank | hub/src/main/resources/swagger-ui/swagger-ui-standalone-preset.js:1 | The popcount of the bitmap masked below a bit is the number of occupied slots below it: the position of the child in the packed array. |
| HashTrie.SlotsDetermine | hub/src/main/resources/swagger-ui/swagger-ui-standalone-preset.js:1 | Hashes that agree on every five-bit group are equal. |
| HashTrie.DistinctHashesPart | hub/src/main/resources/swagger-ui/swagger-ui-standalone-preset.js:1 | Two different hashes on one path have not yet used up their seven groups: the descent of mergeIntoNode (`ne`) ends. |
| HashTrieSlots.InsertChild | hub/src/main/resources/swagger-ui/swagger-ui-standalone-preset.js:1 | Setting a bit and splicing a node into the packed array defines exactly that slot. |
| HashTrieSlots.RemoveChild | hub/src/main/resources/swagger-ui/swagger-ui-standalone-preset.js:1 | Clearing a bit and splicing a node out empties exactly that slot. |
| HashTrieSlots.ReplaceChild | hub/src/main/resources/swagger-ui/swagger-ui-standalone-preset.js:1 | Overwriting a packed child (`ae`) changes exactly its slot. |
| HashTrieSlots.UnpackChild | hub/src/main/resources/swagger-ui/swagger-ui-standalone-preset.js:1 | expandNodes: the 32-way array shows in each slot what the bitmap node showed. |
| HashTrieSlots.PackChild | hub/src/main/resources/swagger-ui/swagger-ui-standalone-preset.js:1 | packNodes: the bitmap node shows in each slot what the 32-way array showed, and its length is its popcount. |
| HashTrieCorrect.MergeCorrect | hub/src/main/resources/swagger-ui/swagger-ui-standalone-preset.js:1 | mergeIntoNode (`ne`) yields a well-formed node that finds the new entry and everything the old leaf found. |
| HashTrieCorrect.GetOnPath | hub/src/main/resources/swagger-ui/swagger-ui-standalone-preset.js:1 | Whatever key a well-formed node finds hashes onto the path of the node. |
| HashTrieCorrect.PutCorrect | hub/src/main/resources/swagger-ui/swagger-ui-standalone-preset.js:1 | Replacing, adding or dropping a child, through every conversion between bitmap node, 32-way array and lone leaf, stays well formed (1 to 16 children or at least 8 slots, an only child no leaf) and changes lookups of that slot only. |
| HashTrieCorrect.UpdateCorrect | hub/src/main/resources/swagger-ui/swagger-ui-standalone-preset.js:1 | Update of any node kind keeps well-formedness, changes the binding of one key, sets the two change flags exactly when something or the number of bindings changed, and returns the same node exactly when nothing changed. |
| HashTrieEntries.EntriesFound | hub/src/main/resources/swagger-ui/swagger-ui-standalone-preset.js:1 | Every entry of a node is found under its key. |
| HashTrieEntries.FoundInEntries | hub/src/main/resources/swagger-ui/swagger-ui-standalone-preset.js:1 | Every binding lookup finds is an entry of the node. |
| HashTrieEntries.EntriesDistinct | hub/src/main/resources/swagger-ui/swagger-ui-standalone-preset.js:1 | No key occurs twice among the entries of a node. |
| HashMaps.UpdateRootCorrect | hub/src/main/resources/swagger-ui/swagger-ui-standalone-preset.js:1 | The same for the root, across the change from a list of eight entries to a trie (`Bt`, `ce`). |
| HashMaps.UpdateMapValid | hub/src/main/resources/swagger-ui/swagger-ui-standalone-preset.js:1 | updateMap (`$t`) keeps the root well formed and changes one lookup. |
| HashMaps.UpdateMapCorrect | hub/src/main/resources/swagger-ui/swagger-ui-standalone-preset.js:1 | set and remove keep the map valid and are assignment and removal on the plain map. |
| HashMaps.LookupIsAbs | hub/src/main/resources/swagger-ui/swagger-ui-standalone-preset.js:1 | get is lookup in the plain map, and the size is its cardinality. |
| HashMaps.SizeTracked | hub/src/main/resources/swagger-ui/swagger-ui-standalone-preset.js:1 | The size computed from the change flags moves by one exactly when the key appears or disappears. |
| HashMaps.RunRefines | hub/src/main/resources/swagger-ui/swagger-ui-standalone-preset.js:1 | After any operations, for any hash function, the trie is the plain map: same bindings, same size, same lookups. |
| HashMaps.InnerHoldsTwo | hub/src/main/resources/swagger-ui/swagger-ui-standalone-preset.js:1 | Every inner or collision node holds at least two bindings, so no removal leaves an empty or needless one. |
| HashMapIterator.Iterator.Next | hub/src/main/resources/swagger-ui/swagger-ui-standalone-preset.js:1 | The explicit-stack iterator (`Zt.next`) hands over the first of the remaining entries, and is done exactly when none remain. |
| HashMapIterator.Traverse | hub/src/main/resources/swagger-ui/swagger-ui-standalone-preset.js:1 | A full traversal, forward or in reverse, hands over the entries in that order: the bindings of the plain map, each once. |
| MapNodes.Frame | hub/src/main/resources/swagger-ui/swagger-ui-standalone-preset.js:1 | What a node stands for depends on the nodes and key-value arrays it reaches, and on nothing else. |
| MapLoops.FindPair | hub/src/main/resources/swagger-ui/swagger-ui-standalone-preset.js:1 | The search loop over an entry list. |
| MapLoops.SplicedIn | hub/src/main/resources/swagger-ui/swagger-ui-standalone-preset.js:1 | The loop of spliceIn. |
| MapLoops.SplicedOut | hub/src/main/resources/swagger-ui/swagger-ui-standalone-preset.js:1 | The loop of spliceOut. |
| MapLoops.Expanded | hub/src/main/resources/swagger-ui/swagger-ui-standalone-preset.js:1 | The loop of expandNodes, which shifts the bits out at the low end, fills the 32-way array slot by slot. |
| MapLoops.PackedBut | hub/src/main/resources/swagger-ui/swagger-ui-standalone-preset.js:1 | The loop of packNodes collects bitmap and nodes in one pass, leaving out the removed slot. |
| MapLeaves.Merge | hub/src/main/resources/swagger-ui/swagger-ui-standalone-preset.js:1 | mergeIntoNode (`ne`) on the heap: new nodes over the old leaf and the new entry stand for the merge on values, and no old node changes. |
| MapEdits.PutStepped | hub/src/main/resources/swagger-ui/swagger-ui-standalone-preset.js:1 | A parent whose child was updated, in place or copied, stands for the value with that child replaced; only owned nodes below it, and arrays of owned leaves under the updated key, have changed, and no owned node occurs twice. |
| MapUpdate.UpdateLeaf | hub/src/main/resources/swagger-ui/swagger-ui-standalone-preset.js:1 | `Jt.update`: overwritten in place under its owner, otherwise replaced, removed or merged. |
| MapUpdate.UpdateClash | hub/src/main/resources/swagger-ui/swagger-ui-standalone-preset.js:1 | `qt.update`: list edits, the shrink to a leaf that shares its array, and the merge with another hash. |
| MapChildren.AddChild | hub/src/main/resources/swagger-ui/swagger-ui-standalone-preset.js:1 | A new child, spliced in or expanded to a 32-way array. |
| MapChildren.DropChild | hub/src/main/resources/swagger-ui/swagger-ui-standalone-preset.js:1 | A child less, spliced out or leaving the lone leaf. |
| MapChildren.SetChild | hub/src/main/resources/swagger-ui/swagger-ui-standalone-preset.js:1 | A replaced child, in place or copied, or the lone leaf in its parent's stead. |
| MapChildren.PutSpread | hub/src/main/resources/swagger-ui/swagger-ui-standalone-preset.js:1 | `Wt.update` after its child: counted, set, or packed below eight. |
| MapChildren.UpdateChild | hub/src/main/resources/swagger-ui/swagger-ui-standalone-preset.js:1 | updateNode (`te`) on a child, present or absent. |
| MapChildren.UpdateInner | hub/src/main/resources/swagger-ui/swagger-ui-standalone-preset.js:1 | `Gt.update` and `Wt.update`: when the child comes back as the same reference the parent is left as it is, although its child may have changed in place. |
| MapChildren.UpdateNode | hub/src/main/resources/swagger-ui/swagger-ui-standalone-preset.js:1 | Every node kind: the updated heap stands for the update on values, with the same two flags, editing only what its owner may edit. |
| MapRoots.CreateNodes | hub/src/main/resources/swagger-ui/swagger-ui-standalone-preset.js:1 | createNodes: the entries of a full list move into a trie of new nodes, edited in place by its owner or by one of its own. |
| MapRoots.UpdateRootNode | hub/src/main/resources/swagger-ui/swagger-ui-standalone-preset.js:1 | The update of a root, list or trie. |
| MapSessions.HeapMap.Get | hub/src/main/resources/swagger-ui/swagger-ui-standalone-preset.js:1 | get on the heap is lookup in the plain map. |
| MapSessions.HeapMap.Update | hub/src/main/resources/swagger-ui/swagger-ui-standalone-preset.js:1 | set and remove (`$t`): the map, in place under an owner or new, stands for the updated map on values. |
| MapSessions.HeapMap.AsMutable | hub/src/main/resources/swagger-ui/swagger-ui-standalone-preset.js:1 | asMutable: the same map under an owner, a new one unless it has one. |
| MapSessions.HeapMap.AsImmutable | hub/src/main/resources/swagger-ui/swagger-ui-standalone-preset.js:1 | asImmutable: the same map, owned by nobody. |
| MapIsolation.TrieNoClash | hub/src/main/resources/swagger-ui/swagger-ui-standalone-preset.js:1 | A trie whose keys have distinct hashes has no collision node at any depth. |
| MapIsolation.EditAll | hub/src/main/resources/swagger-ui/swagger-ui-standalone-preset.js:1 | Any operations through a mutable map are those operations on the plain map; if they remove nothing, or the keys of the map and the operations have distinct hashes, no other map notices. |
| MapIsolation.RunAll | hub/src/main/resources/swagger-ui/swagger-ui-standalone-preset.js:1 | Any operations on the empty map without a session: the last map is the plain map after them, for every hash function, and every map that was there before holds what it held. |
| MapIsolation.WithMutations | hub/src/main/resources/swagger-ui/swagger-ui-standalone-preset.js:1 | withMutations: the result is the plain map after all operations for every hash function; if they remove nothing, or the keys have distinct hashes, every other map keeps its contents. |
| HashMaps.SameHashLeaf | hub/src/main/resources/swagger-ui/swagger-ui-standalone-preset.js:1 | A trie whose keys all share one hash is a leaf: removals have collapsed every level above it. |
| MapLeaks.PublishTwo | hub/src/main/resources/swagger-ui/swagger-ui-standalone-preset.js:1 | From the empty map, setting two keys and seven others and removing the others leaves a trie of the two. |
| MapLeaks.CollisionLeak | hub/src/main/resources/swagger-ui/swagger-ui-standalone-preset.js:1 | A published map of two keys with one hash, and a session on it that removes the second key and sets the first: no field of the published map changes, and yet it now binds the first key to the session's value. |
| MapLeaks.LeakFromEmpty | hub/src/main/resources/swagger-ui/swagger-ui-standalone-preset.js:1 | The same from the empty map: the published map's own lookups of the key, before and after the session. |
| VectorUpdate.Editable | hub/src/main/resources/swagger-ui/swagger-ui-standalone-preset.js:1 | editableVNode (`be`): a node is edited in place only under its own owner; anything else is copied. |
| VectorUpdate.UpdateVNode | hub/src/main/resources/swagger-ui/swagger-ui-standalone-preset.js:1 | updateVNode (`_e`): one index of the trie is assigned; every node, old or new, shows what it showed at all other indices, and only nodes of the owner are written. |
| VectorTruncate.RemoveAfter | hub/src/main/resources/swagger-ui/swagger-ui-standalone-preset.js:1 | removeAfter (`ve.removeAfter`): below the new end the trie shows the same elements; no node changes what it shows there. |
| VectorBounds.GrowRoot | hub/src/main/resources/swagger-ui/swagger-ui-standalone-preset.js:1 | Adding root levels makes room for the new end, keeps every element, and shows none further up. |
| VectorBounds.LeafFor | hub/src/main/resources/swagger-ui/swagger-ui-standalone-preset.js:1 | listNodeFor (`xe`): the leaf found shows, for each of its 32 indices, what the root shows. |
| VectorBounds.DropLevels | hub/src/main/resources/swagger-ui/swagger-ui-standalone-preset.js:1 | Dropping root levels keeps every element below the new end, and the root still spans it. |
| VectorTail.InsertTail | hub/src/main/resources/swagger-ui/swagger-ui-standalone-preset.js:1 | Moving a full tail into the tree hangs it at its offset and keeps every element elsewhere. |
| VectorList.GrownKeeps | hub/src/main/resources/swagger-ui/swagger-ui-standalone-preset.js:1 | Growing keeps the elements if and only if the tail stays or survives its move into the tree. |
| VectorList.GrowsPlain | hub/src/main/resources/swagger-ui/swagger-ui-standalone-preset.js:1 | Growing appends absent elements and changes nothing else if and only if the tail stays or survives, and nothing that was cut off is left in the tail or behind it. |
| VectorList.DefinedSurvives | hub/src/main/resources/swagger-ui/swagger-ui-standalone-preset.js:1 | A list that is empty, or has a defined element in its last block, always survives the move. |
| VectorList.List.Get | hub/src/main/resources/swagger-ui/swagger-ui-standalone-preset.js:1 | get (`pe.get`): the element of the sequence, counting from the end for a negative index; absent outside. |
| VectorList.List.SetListBounds | hub/src/main/resources/swagger-ui/swagger-ui-standalone-preset.js:1 | setListBounds (`Ne`) from 0: shrinking gives the prefix; growing shows at every index of the longer list exactly what the tail and the old root hold there; owner, flag and unowned nodes are respected. |
| VectorList.List.Clear | hub/src/main/resources/swagger-ui/swagger-ui-standalone-preset.js:1 | clear gives the empty list, in place under an owner. |
| VectorList.List.SetInside | hub/src/main/resources/swagger-ui/swagger-ui-standalone-preset.js:1 | updateList at an index inside the list replaces exactly that element; clearing the last slot of the tail shortens it. |
| VectorList.List.Set | hub/src/main/resources/swagger-ui/swagger-ui-standalone-preset.js:1 | set: inside the list as above; at an index past the end the list grows first, showing what growing shows. |
| VectorList.List.Pop | hub/src/main/resources/swagger-ui/swagger-ui-standalone-preset.js:1 | pop drops the last element, and leaves an empty list alone. |
| VectorList.List.PushInPlace | hub/src/main/resources/swagger-ui/swagger-ui-standalone-preset.js:1 | The editing session of push: the grown list followed by the new values. |
| VectorList.List.Push | hub/src/main/resources/swagger-ui/swagger-ui-standalone-preset.js:1 | push appends the values, in an editing session of its own unless one is open. |
| VectorList.List.AsMutable | hub/src/main/resources/swagger-ui/swagger-ui-standalone-preset.js:1 | asMutable: the same contents under an owner; a new owner is fresh. |
| VectorList.List.AsImmutable | hub/src/main/resources/swagger-ui/swagger-ui-standalone-preset.js:1 | asImmutable: the same contents, the owner no longer active. |
| VectorSession.Isolated | hub/src/main/resources/swagger-ui/swagger-ui-standalone-preset.js:1 | Edits by one owner do not show in a list of nobody or of another owner. |
| VectorSession.KeepsGrown | hub/src/main/resources/swagger-ui/swagger-ui-standalone-preset.js:1 | As far as a caller can see it: if the list is empty, or its last block has a defined element, or the block does not change, growing keeps the elements. |
| VectorSession.DefinedSteady | hub/src/main/resources/swagger-ui/swagger-ui-standalone-preset.js:1 | With defined elements only, every push, pop and set up to the end meets that condition. |
| VectorSession.ApplyEdit | hub/src/main/resources/swagger-ui/swagger-ui-standalone-preset.js:1 | One edit (push, pop, set), in place or as a new list: if it meets the condition it is that edit of the plain sequence, absent elements included. |
| VectorSession.RunAll | hub/src/main/resources/swagger-ui/swagger-ui-standalone-preset.js:1 | Any edits without a session, each on the list the one before returned: nothing is written to, and the last list is the plain sequence after the edits. |
| VectorSession.RunFromEmpty | hub/src/main/resources/swagger-ui/swagger-ui-standalone-preset.js:1 | The same from the empty list. |
| VectorSession.EditAll | hub/src/main/resources/swagger-ui/swagger-ui-standalone-preset.js:1 | Any edits through a mutable list: every list published before keeps its contents, and the edited list is the plain sequence after the edits. |
| VectorSession.WithMutations | hub/src/main/resources/swagger-ui/swagger-ui-standalone-preset.js:1 | withMutations: whatever the edits, no published list changes; the result is the plain sequence after them. |
| VectorStale.Resurrection | hub/src/main/resources/swagger-ui/swagger-ui-standalone-preset.js:1 | From the empty list by push, pop and set, a list half of which is cleared; one more push and the cleared half is back, where the plain sequence stays absent. |
| VectorStale.Regrowth | hub/src/main/resources/swagger-ui/swagger-ui-standalone-preset.js:1 | From the empty list by push and two changes of size, a list that shows a whole leaf of elements that were cut off. |
| OrderedChains.Detach | hub/src/main/resources/swagger-ui/swagger-ui.js:8 | Unlinking an entry changes the two links around it and marks it removed; its own links stay. |
| OrderedChains.DropLinked | hub/src/main/resources/swagger-ui/swagger-ui.js:8 | Removing an entry keeps the chain linked: live entries in order, each removed one leading back to an earlier position. |
| OrderedChains.AppendLinked | hub/src/main/resources/swagger-ui/swagger-ui.js:8 | Appending an entry keeps the chain linked. |
| OrderedChains.ClearedLinked | hub/src/main/resources/swagger-ui/swagger-ui.js:8 | After clear, every entry is removed and leads back to none or to an entry removed before it. |
| OrderedChains.LiveUpdate | hub/src/main/resources/swagger-ui/swagger-ui.js:8 | Rebinding a live entry replaces exactly its binding. |
| OrderedChains.LiveRemove | hub/src/main/resources/swagger-ui/swagger-ui.js:8 | Removing a live entry drops exactly its binding and keeps the order. |
| OrderedChains.LiveAppend | hub/src/main/resources/swagger-ui/swagger-ui.js:8 | Appending an entry appends its binding. |
| OrderedChains.FindIsFirst | hub/src/main/resources/swagger-ui/swagger-ui.js:8 | The first matching live entry is the first matching binding. |
| OrderedWalks.VisitsInOrder | hub/src/main/resources/swagger-ui/swagger-ui.js:8 | A traversal under callbacks that define, delete or clear visits bindings in rising order of insertion, none twice; each is live when it is visited, handed over with its value of that moment, and nothing live is passed over. |
| OrderedWalks.SurvivorsVisited | hub/src/main/resources/swagger-ui/swagger-ui.js:8 | Whatever is live when the traversal ends, and lay ahead of it, has been visited, additions included. |
| OrderedWalks.WalkUndisturbed | hub/src/main/resources/swagger-ui/swagger-ui.js:8 | Left alone, a traversal visits exactly the live bindings in order. |
| OrderedWalks.FrozenLookup | hub/src/main/resources/swagger-ui/swagger-ui.js:8 | A frozen key reaches its own binding if and only if no earlier live key is loosely equal to it. |
| OrderedWalks.FrozenMisses | hub/src/main/resources/swagger-ui/swagger-ui.js:8 | A frozen array behind the text it is loosely equal to: its lookup ends at the text. |
| OrderedMaps.OrderedMap.GetEntry | hub/src/main/resources/swagger-ui/swagger-ui.js:8 | getEntry: the entry of the first matching live binding, through the index or along the list. |
| OrderedMaps.OrderedMap.Scan | hub/src/main/resources/swagger-ui/swagger-ui.js:8 | The search along the list for a frozen key. |
| OrderedMaps.OrderedMap.Has | hub/src/main/resources/swagger-ui/swagger-ui.js:8 | has answers whether some binding matches. |
| OrderedMaps.OrderedMap.Delete | hub/src/main/resources/swagger-ui/swagger-ui.js:8 | delete drops the binding found, keeps the order of the others, and keeps index, list and size in agreement. |
| OrderedMaps.OrderedMap.Def | hub/src/main/resources/swagger-ui/swagger-ui.js:8 | def rebinds in place or appends; every other binding keeps its place, and index, list and size agree. |
| OrderedMaps.OrderedMap.Clear | hub/src/main/resources/swagger-ui/swagger-ui.js:8 | clear leaves no binding and cuts every entry loose. |
| OrderedMaps.OrderedMap.Advance | hub/src/main/resources/swagger-ui/swagger-ui.js:8 | The step of forEach: back along the links of removed entries and on to the next live entry in order. |
| OrderedMaps.OrderedMap.ForEach | hub/src/main/resources/swagger-ui/swagger-ui.js:8 | forEach under a script of callback edits is the reference traversal, visits and final map alike. |
| WritableLedger.MoveOk | hub/src/main/resources/swagger-ui/swagger-ui-standalone-preset.js:13 | Running some callbacks of one transport call keeps the books: each callback counted once, no other call disturbed. |
| WritableLedger.OwedBounds | hub/src/main/resources/swagger-ui/swagger-ui-standalone-preset.js:13 | `pendingcb` can only be 0 when every callback of every call has run. |
| WritableSafety.StepInv | hub/src/main/resources/swagger-ui/swagger-ui-standalone-preset.js:13 | Every step (write, cork, uncork, end, completion, tick, return of user code) keeps the invariant of the stream. |
| WritableSafety.RunInv | hub/src/main/resources/swagger-ui/swagger-ui-standalone-preset.js:13 | Every reachable state has the invariant. |
| WritableRuns.RunDelivers | hub/src/main/resources/swagger-ui/swagger-ui-standalone-preset.js:13 | In every run, what was sent followed by what is buffered is what was written, in order and once; at most one transport call is in flight, the last; `length` is in-flight plus buffered size; an idle uncorked stream buffers nothing. |
| WritableRuns.RunFinishes | hub/src/main/resources/swagger-ui/swagger-ui-standalone-preset.js:13 | No write callback runs twice, `finish` comes at most once, and only when the stream was ended, everything was sent, nothing is in flight and every callback has run. |
| WritableRuns.QuietFinished | hub/src/main/resources/swagger-ui/swagger-ui-standalone-preset.js:13 | When nothing is left to do, every callback has run exactly once and `finish` was emitted if and only if the stream was ended. |
| WritableRuns.StepHistory | hub/src/main/resources/swagger-ui/swagger-ui-standalone-preset.js:13 | A step accepts at most the write it is given, and only before `end`; what was sent stays sent. |
| WritableDrains.FlagMeansWaiting | hub/src/main/resources/swagger-ui/swagger-ui-standalone-preset.js:13 | In every run, `needDrain` holds exactly when a write was answered by asking the caller to wait, which is when what the stream then holds reaches the high-water mark, and no `drain` has come since. |
| WritableDrains.DrainOnlyWhenDue | hub/src/main/resources/swagger-ui/swagger-ui-standalone-preset.js:13 | `drain` comes one at a time, only in a step that leaves the stream holding nothing, and only while a caller is asked to wait, who then is no longer. |
| WritableDrains.DrainOnComplete | hub/src/main/resources/swagger-ui/swagger-ui-standalone-preset.js:13 | When a call completes later on, `drain` comes if and only if a caller waits and the stream then holds nothing, except for the last call of an ended stream. |
| WritableDrains.DrainOnTick | hub/src/main/resources/swagger-ui/swagger-ui-standalone-preset.js:13 | When a call completed before it returned, `drain` comes with its tick, if and only if a caller waits and the stream holds nothing. |
| WritableDrains.QuietNotWaiting | hub/src/main/resources/swagger-ui/swagger-ui-standalone-preset.js:13 | A stream that has come to rest, and was not ended, has told everyone it asked to wait. |
| WritableEvents.RunCorks | hub/src/main/resources/swagger-ui/swagger-ui-standalone-preset.js:13 | The stream is corked as often as `cork` was called more than `uncork`, up to `end`, and no step that leaves it corked hands anything to the transport. |
| WritableEvents.CallbacksLater | hub/src/main/resources/swagger-ui/swagger-ui-standalone-preset.js:13 | No write callback runs within `write`, `cork`, `uncork`, `end` or the completion of `_final`. |
| WritableEvents.RunBatches | hub/src/main/resources/swagger-ui/swagger-ui-standalone-preset.js:13 | A transport call is a batch only with `_writev`, and then for two writes or more; any other is for one write. |
| WritableEvents.UncorkBatch | hub/src/main/resources/swagger-ui/swagger-ui-standalone-preset.js:13 | With `_writev`, taking the last cork off an idle stream hands over everything buffered in one call. |
| WritableEvents.FinishAfterFinal | hub/src/main/resources/swagger-ui/swagger-ui-standalone-preset.js:13 | A stream that has finished has prefinished, through the completion of `_final` if it has one; neither comes before the stream is ended, empty and idle, and a stream without `_final` never calls it. |
| WritableEvents.PrefinishByFinal | hub/src/main/resources/swagger-ui/swagger-ui-standalone-preset.js:13 | `_final` is started by a tick, and only its completion makes a stream that has one prefinish. |
| WritableStreams.Writable.DoWrite | hub/src/main/resources/swagger-ui/swagger-ui-standalone-preset.js:13 | The call of `_write` or `_writev` takes the step of the machine, whether or not the transport completes at once. |
| WritableStreams.Writable.ClearBuffer | hub/src/main/resources/swagger-ui/swagger-ui-standalone-preset.js:13 | clearBuffer (`m`): one batch, or call by call until one stays in flight. |
| WritableStreams.Writable.DrainBuffer | hub/src/main/resources/swagger-ui/swagger-ui-standalone-preset.js:13 | The loop of clearBuffer is the step-by-step drain of the machine. |
| WritableStreams.Writable.FinishMaybe | hub/src/main/resources/swagger-ui/swagger-ui-standalone-preset.js:13 | finishMaybe (`b`): the machine step to `prefinish`, `_final` and `finish`. |
| WritableStreams.Writable.Write | hub/src/main/resources/swagger-ui/swagger-ui-standalone-preset.js:13 | write takes the step of the machine and asks the caller to wait exactly when the buffer is full or the stream has ended. |
| WritableStreams.Writable.Uncork | hub/src/main/resources/swagger-ui/swagger-ui-standalone-preset.js:13 | uncork counts down and flushes at 0. |
| WritableStreams.Writable.End | hub/src/main/resources/swagger-ui/swagger-ui-standalone-preset.js:13 | end uncorks once and fully, and ends the stream. |
| WritableStreams.Writable.OnWrite | hub/src/main/resources/swagger-ui/swagger-ui-standalone-preset.js:13 | onwrite: completion, at once or on the next tick, takes the step of the machine; when it says `drain` is WritableDrains.DrainOnComplete. |
| WritableStreams.Writable.Tick | hub/src/main/resources/swagger-ui/swagger-ui-standalone-preset.js:13 | A deferred task takes the step of the machine; when it says `drain` is WritableDrains.DrainOnTick. |
| WritableStreams.Writable.Resume | hub/src/main/resources/swagger-ui/swagger-ui-standalone-preset.js:13 | Behind a callback the stream goes on to the next callback, the drain or the finish, as the machine says. |
| WritableStreams.Writable.FinalDone | hub/src/main/resources/swagger-ui/swagger-ui-standalone-preset.js:13 | The completion of `_final` counts down and may finish the stream. |
| PromiseSafety.SettleInv | hub/src/main/resources/swagger-ui/swagger-ui.js:1 | Settling a promise by its holder keeps the invariant. |
| PromiseSafety.StepInv | hub/src/main/resources/swagger-ui/swagger-ui.js:1 | Every step of the machine keeps the invariant, whatever handles are called, how often and in which order. |
| PromiseSafety.RunInv | hub/src/main/resources/swagger-ui/swagger-ui.js:1 | Every reachable state has the invariant. |
| PromiseRuns.SettledForever | hub/src/main/resources/swagger-ui/swagger-ui.js:1 | Once settled, a promise keeps state and value through every continuation of every run. |
| PromiseRuns.RunReactions | hub/src/main/resources/swagger-ui/swagger-ui.js:1 | Reactions run in order of registration, none twice, none before the promise is settled. |
| PromiseRuns.QuietRuns | hub/src/main/resources/swagger-ui/swagger-ui.js:1 | When no task is left, every reaction of every settled promise has run, and each pending promise can still be settled through exactly one handle. |
| PromiseRuns.OneHandle | hub/src/main/resources/swagger-ui/swagger-ui.js:1 | No promise can be settled through two unused handles; a thenable that calls both functions or calls them repeatedly settles once. |
| PromiseOutcomes.Derived | hub/src/main/resources/swagger-ui/swagger-ui.js:1 | then returns a new pending promise that only the handle of its reaction can settle, and the reaction comes last among those registered. |
| PromiseOutcomes.DerivedStays | hub/src/main/resources/swagger-ui/swagger-ui.js:1 | Through every continuation a reaction keeps its handlers and its handle, and a handle its promise. |
| PromiseOutcomes.HandlerCalled | hub/src/main/resources/swagger-ui/swagger-ui.js:1 | A reaction with a handler for the outcome has it called, and the handler reports to the handle of that reaction. |
| PromiseOutcomes.ReturnedOutcome | hub/src/main/resources/swagger-ui/swagger-ui.js:1 | A derived promise still open when its handler returns v is, for the rest of every run, fulfilled with v if v is plain, rejected with e if reading `then` throws e, and rejected with the cycle error if v is the promise itself; if v is a thenable it stays open. |
| PromiseOutcomes.ThrownOutcome | hub/src/main/resources/swagger-ui/swagger-ui.js:1 | When the handler throws v, the derived promise still open is rejected with v for the rest of every run. |
| PromiseOutcomes.PassedOutcome | hub/src/main/resources/swagger-ui/swagger-ui.js:1 | Without a handler for it the outcome is passed on: a rejection as it is, a value as if a handler had returned it. |
| PromiseOutcomes.UsedChangesNothing | hub/src/main/resources/swagger-ui/swagger-ui.js:1 | A handle used before changes no promise and queues no task, whoever calls it. |
| PromiseOutcomes.ResolvedOutcome | hub/src/main/resources/swagger-ui/swagger-ui.js:1 | Resolving an open promise settles it at once and for good in the same three ways; with a thenable it queues the call of its `then`, and until then nobody can settle the promise. |
| PromiseOutcomes.RejectedOutcome | hub/src/main/resources/swagger-ui/swagger-ui.js:1 | Rejecting an open promise with v leaves it rejected with v for the rest of every run. |
| PromiseOutcomes.ThenableAsked | hub/src/main/resources/swagger-ui/swagger-ui.js:1 | The task that calls a thenable's `then` hands it a new handle, which from then on is the only one that can settle the promise. |
| PromiseOutcomes.ChainFulfilled | hub/src/main/resources/swagger-ui/swagger-ui.js:1 | A new promise with one success handler, resolved with a plain x: the handler is called, and when it returns a plain y the derived promise is fulfilled with y, for the rest of every run. |
| Promises.Realm.Notify | hub/src/main/resources/swagger-ui/swagger-ui.js:1 | notify (`P`) queues one flush per settlement. |
| Promises.Realm.Reject | hub/src/main/resources/swagger-ui/swagger-ui.js:1 | reject (`R`) takes the step of the machine. |
| Promises.Realm.Resolve | hub/src/main/resources/swagger-ui/swagger-ui.js:1 | resolve (`M`) takes the step of the machine: itself, a thenable, a throwing `then`, or a plain value. |
| Promises.Realm.New | hub/src/main/resources/swagger-ui/swagger-ui.js:1 | A new pending promise with one unused handle. |
| Promises.Realm.Then | hub/src/main/resources/swagger-ui/swagger-ui.js:1 | then registers a reaction and returns the derived promise; on a settled promise it queues a flush. |
| Promises.Realm.RunTask | hub/src/main/resources/swagger-ui/swagger-ui.js:1 | The next microtask starts a flush, or calls a thenable with a fresh resolver. |
| Promises.Realm.Advance | hub/src/main/resources/swagger-ui/swagger-ui.js:1 | The flush runs the next reaction, those added meanwhile included, or ends. |
| Promises.Realm.React | hub/src/main/resources/swagger-ui/swagger-ui.js:1 | One reaction: the handler is called, or the outcome passed on. |
| Promises.Realm.Deliver | hub/src/main/resources/swagger-ui/swagger-ui.js:1 | The result of a reaction goes to the derived promise by the step of the machine; the outcome is PromiseOutcomes.ReturnedOutcome. |
| Promises.Realm.Return | hub/src/main/resources/swagger-ui/swagger-ui.js:1 | The handler returns, and the derived promise takes the step of the machine. |
| Promises.Realm.Throw | hub/src/main/resources/swagger-ui/swagger-ui.js:1 | The handler throws, and the derived promise is rejected. |
| Microtasks.StartsInOrder | hub/src/main/resources/swagger-ui/swagger-ui.js:1 | The microtask list: tasks start in the order they were queued, none twice, whatever throws or is queued meanwhile; when no flush is scheduled and no task runs, all have started. |
| Microtasks.Queue.Enqueue | hub/src/main/resources/swagger-ui/swagger-ui.js:1 | Appending to the linked list, scheduling a flush only when it was empty. |
| Microtasks.Queue.Loop | hub/src/main/resources/swagger-ui/swagger-ui.js:1 | The loop of a flush moves the head on to the next task, or clears the last pointer. |
| Microtasks.Queue.Flush | hub/src/main/resources/swagger-ui/swagger-ui.js:1 | A scheduled flush begins. |
| Microtasks.Queue.Threw | hub/src/main/resources/swagger-ui/swagger-ui.js:1 | A throwing task leaves the rest to a flush scheduled anew. |
| PromiseAll.RunTracks | hub/src/main/resources/swagger-ui/swagger-ui.js:1 | Through every order of reaching, reporting (early, late, repeated) and closing, the counter is the number of elements that have not reported, plus one while the iteration is open. |
| PromiseAll.ResolvesOnce | hub/src/main/resources/swagger-ui/swagger-ui.js:1 | `all` resolves exactly when the iteration has ended and every element has reported, once, with the first report of element k at index k. |
| PromiseReactions.StepOver | hub/src/main/resources/swagger-ui/swagger-ui.js:1 | A reaction with both handlers is over only by the return of its own handler, which is called once. |
| PromiseReactions.StepKept | hub/src/main/resources/swagger-ui/swagger-ui.js:1 | A promise whose one handle nobody uses stays pending, whatever else happens. |
| PromiseCombined.StepConsistent | hub/src/main/resources/swagger-ui/swagger-ui.js:1 | Reaching an element, its handlers, the end of the iteration, a throw out of it, and anything else that happens keep the counter, the element promises and the combined promise of `all` consistent. |
| PromiseCombined.AllOutcome | hub/src/main/resources/swagger-ui/swagger-ui.js:1 | In every run of the promise machine with `all`: an element is reported only when its promise is fulfilled, with its value, and no handler returns twice; the combined promise is fulfilled only after all element promises are, with their values in order, and rejected with the first failure handled. |
| PromiseCombined.AllQuiet | hub/src/main/resources/swagger-ui/swagger-ui.js:1 | When no task is left and the iteration has ended, the combined promise is fulfilled if and only if all element promises are, and rejected if and only if one of them is. |
| PromiseCombined.AllSettlesOnce | hub/src/main/resources/swagger-ui/swagger-ui.js:1 | Once settled, the combined promise keeps its outcome through every continuation. |
| Utf8.DecodeEncode | hub/src/main/resources/swagger-ui/swagger-ui-standalone-preset.js:13 | Decoding the encoding of any scalar values gives them back. |
| Utf8.DecodedPaired | hub/src/main/resources/swagger-ui/swagger-ui-standalone-preset.js:13 | Decoding arbitrary bytes never yields a lone surrogate. |
| Utf8Table.EncodedSpells | hub/src/main/resources/swagger-ui/swagger-ui-standalone-preset.js:13 | The encoder writes for each character the one to four bytes that spell it in the table of section 3 of RFC 3629. |
| Utf8Table.DecodedSpelled | hub/src/main/resources/swagger-ui/swagger-ui-standalone-preset.js:13 | Bytes that spell a character there, in the fewest bytes and no surrogate, are read as that character. |
| Utf8Table.DecodedMalformed | hub/src/main/resources/swagger-ui/swagger-ui-standalone-preset.js:13 | Where no character is spelled, one byte is read as U+FFFD and reading goes on behind it. |
| Utf8Table.UnitsPair | hub/src/main/resources/swagger-ui/swagger-ui-standalone-preset.js:13 | A character above U+FFFF is a surrogate pair that holds ten bits in each unit. |
| Utf8Codec.Decode | hub/src/main/resources/swagger-ui/swagger-ui-standalone-preset.js:13 | The decoding loop (`N`), with its clamped end, is the reference decoder. |
| Utf8Codec.Encode | hub/src/main/resources/swagger-ui/swagger-ui-standalone-preset.js:13 | The encoding loop (`Q`), with its byte budget, is the reference encoder. |
| Utf8Codec.LossyPaired | hub/src/main/resources/swagger-ui/swagger-ui-standalone-preset.js:13 | Without lone surrogates the encoder loses nothing. |
| Utf8Codec.LossyReplaces | hub/src/main/resources/swagger-ui/swagger-ui-standalone-preset.js:13 | Every lone surrogate becomes U+FFFD, except that of two lead surrogates at the very end the last is dropped. |
| Utf8Codec.RoundTrip | hub/src/main/resources/swagger-ui/swagger-ui-standalone-preset.js:13 | `N(Q(s)) = s` for every string without lone surrogates. |
| Utf8Codec.FitLongest | hub/src/main/resources/swagger-ui/swagger-ui-standalone-preset.js:13 | Cutting at a budget takes whole characters, fits, and is as long as possible. |
| Utf8Codec.BudgetKept | hub/src/main/resources/swagger-ui/swagger-ui-standalone-preset.js:13 | With a positive budget the result is a prefix of the full encoding that fits, ends on a character boundary, and leaves no room for the next character. |
| Utf8Codec.BudgetExact | hub/src/main/resources/swagger-ui/swagger-ui-standalone-preset.js:13 | The result keeps within the budget if and only if the budget is positive or the string is empty. |
| StringDecoders.ScanFinds | hub/src/main/resources/swagger-ui/swagger-ui-standalone-preset.js:13 | The backward scan finds the incomplete character at the end of a chunk and how many bytes it still needs, and nothing when there is none. |
| StringDecoders.StringDecoder.CheckExtraBytes | hub/src/main/resources/swagger-ui/swagger-ui-standalone-preset.js:13 | The malformed-continuation check finds the first byte, within those needed, that cannot go on with the character. |
| StringDecoders.StringDecoder.Text | hub/src/main/resources/swagger-ui/swagger-ui-standalone-preset.js:13 | utf8Text decodes up to the incomplete character and keeps that; whatever the bytes, what is not decoded is kept. |
| StringDecoders.StringDecoder.FillLast | hub/src/main/resources/swagger-ui/swagger-ui-standalone-preset.js:13 | utf8FillLast completes the kept character as soon as its bytes are there, or gives U+FFFD and stops at the byte that does not fit. |
| StringDecoders.StringDecoder.Write | hub/src/main/resources/swagger-ui/swagger-ui-standalone-preset.js:13 | write hands over exactly the characters completed so far; a character broken off becomes one U+FFFD, and decoding goes on at the byte that does not fit. |
| StringDecoders.StringDecoder.End | hub/src/main/resources/swagger-ui/swagger-ui-standalone-preset.js:13 | end hands over what is left, with U+FFFD for a character still incomplete. |
| StringDecoders.DecodeChunks | hub/src/main/resources/swagger-ui/swagger-ui-standalone-preset.js:13 | However UTF-8 that may end inside a character is cut into chunks, the texts together are the decoding of the whole, with U+FFFD for the character cut off. |
| IntegerBytes.FloorFromTruncated | hub/src/main/resources/swagger-ui/swagger-ui-standalone-preset.js:13 | The borrow flag turns truncating division into floor division. |
| IntegerBytes.SumDigits | hub/src/main/resources/swagger-ui/swagger-ui-standalone-preset.js:13 | The bytes written add up to the number modulo the width. |
| IntegerBytes.WriteInt | hub/src/main/resources/swagger-ui/swagger-ui-standalone-preset.js:13 | writeIntLE and writeIntBE write the base-256 digits of the value in two's complement at the offset, or nothing when value or offset is out of range. |
| IntegerBytes.ReadInt | hub/src/main/resources/swagger-ui/swagger-ui-standalone-preset.js:13 | readIntLE and readIntBE read the signed number the bytes spell. |
| IntegerBytes.RoundTrip | hub/src/main/resources/swagger-ui/swagger-ui-standalone-preset.js:13 | Reading inverts writing for every width and every value in range, in either byte order. |
| IntegerBytes.LittleEndian | hub/src/main/resources/swagger-ui/swagger-ui-standalone-preset.js:13 | Read in little-endian order, the first byte counts ones and the rest counts in 256s. |
| IntegerBytes.BigEndian | hub/src/main/resources/swagger-ui/swagger-ui-standalone-preset.js:13 | Read in big-endian order, the last byte counts ones and the rest counts in 256s. |
| IntegerBytes.WrittenValue | hub/src/main/resources/swagger-ui/swagger-ui-standalone-preset.js:13 | What writeIntLE and writeIntBE write is, in its byte order, the value modulo the width. |
| IntegerBytes.ReadBack | hub/src/main/resources/swagger-ui/swagger-ui-standalone-preset.js:13 | Every number read from bytes can be written back into as many: the range accepted is exactly what they hold. |
| Base64.FromByteArray | hub/src/main/resources/swagger-ui/swagger-ui-standalone-preset.js:21 | fromByteArray, in blocks of 16383 bytes, is the reference encoding; its letters are Base64Alphabet.EncodedLetters. |
| Base64.ToByteArray | hub/src/main/resources/swagger-ui/swagger-ui-standalone-preset.js:21 | toByteArray is the reference decoding; its bytes are Base64Alphabet.DecodedLetters. |
| Base64.RoundTrip | hub/src/main/resources/swagger-ui/swagger-ui-standalone-preset.js:21 | Decoding inverts encoding for every byte sequence. |
| Base64Alphabet.EncodedLetters | hub/src/main/resources/swagger-ui/swagger-ui-standalone-preset.js:21 | Every character before the padding is the letter of A-Z, a-z, 0-9, +, / at the number that its six bits of the input spell, and '=' fills the last quad. |
| Base64Alphabet.DecodedLetters | hub/src/main/resources/swagger-ui/swagger-ui-standalone-preset.js:21 | toByteArray fails exactly on a length that is no multiple of 4 or a text that starts with padding; otherwise the bytes hold, six bits each, the places of the letters before the padding, '-' and '_' counting as 62 and 63 and foreign characters as 0. Padding where a quad starts costs the quad before it and adds two zero bytes. |
| Base64Alphabet.DecodedUnpacked | hub/src/main/resources/swagger-ui/swagger-ui-standalone-preset.js:21 | Up to the padding the two decoders read a text alike, except where padding starts a quad. |
| YamlBinary.Represent | hub/src/main/resources/swagger-ui/swagger-ui-standalone-preset.js:21 | The rolling encoder produces the reference encoding for nonempty input, and "AAAA" for none; its letters are Base64Alphabet.RepresentedLetters. |
| YamlBinary.EmptyDiffers | hub/src/main/resources/swagger-ui/swagger-ui-standalone-preset.js:21 | The two encoders agree if and only if the input is not empty. |
| YamlBinary.Resolve | hub/src/main/resources/swagger-ui/swagger-ui-standalone-preset.js:21 | resolve accepts exactly the texts over the alphabet whose characters, line breaks aside, number a multiple of 4. |
| YamlBinary.Construct | hub/src/main/resources/swagger-ui/swagger-ui-standalone-preset.js:21 | construct unpacks the accepted text, padding and line breaks stripped; its bytes are Base64Alphabet.ConstructedLetters. |
| YamlBinary.BinaryRoundTrip | hub/src/main/resources/swagger-ui/swagger-ui-standalone-preset.js:21 | The rolling decoder inverts the encoding. |
| YamlBinary.ResolvedBack | hub/src/main/resources/swagger-ui/swagger-ui-standalone-preset.js:21 | resolve accepts everything represent writes, and construct gives the bytes back, three zeros in place of none. |
| Base64Alphabet.RepresentedLetters | hub/src/main/resources/swagger-ui/swagger-ui-standalone-preset.js:21 | represent writes the same letters by the same alphabet, and "AAAA" for no bytes. |
| Base64Alphabet.ConstructedLetters | hub/src/main/resources/swagger-ui/swagger-ui-standalone-preset.js:21 | construct makes of letters the bytes that hold their places, six bits each, and three zeros of no letters. |
| Base64Alphabet.ConstructedSkips | hub/src/main/resources/swagger-ui/swagger-ui-standalone-preset.js:21 | Line breaks and padding anywhere in the text make no difference to construct. |
| Base64Alphabet.ResolvesIs | hub/src/main/resources/swagger-ui/swagger-ui-standalone-preset.js:21 | resolve accepts a text if and only if it is made of those 64 letters, '=' and line breaks, and its length without line breaks is a multiple of 4. |
| YamlScalars.DumpDouble | hub/src/main/resources/swagger-ui/swagger-ui-standalone-preset.js:21 | The double-quoted dumper writes the reference form. |
| YamlScalars.ReadEscape | hub/src/main/resources/swagger-ui/swagger-ui-standalone-preset.js:21 | Each escape the dumper writes reads back as its code point. |
| YamlScalars.ReadDoubleQuoted | hub/src/main/resources/swagger-ui/swagger-ui-standalone-preset.js:21 | The double-quoted reader, with its captured segments, is the reference reader; what it makes of breaks and escapes is YamlFolding and YamlEscapes. |
| YamlScalars.DoubleRoundTrip | hub/src/main/resources/swagger-ui/swagger-ui-standalone-preset.js:21 | Every UTF-16 string, lone surrogates included, is read back from its double-quoted form, whatever follows. |
| YamlScalars.ReadSingleQuoted | hub/src/main/resources/swagger-ui/swagger-ui-standalone-preset.js:21 | The single-quoted reader, with its captured segments, is the reference reader; what it makes of breaks is YamlFolding. |
| YamlScalars.SingleRoundTrip | hub/src/main/resources/swagger-ui/swagger-ui-standalone-preset.js:21 | A string without control characters other than tab is read back from its single-quoted form. |
| YamlScalars.SingleExact | hub/src/main/resources/swagger-ui/swagger-ui-standalone-preset.js:21 | The single-quoted pair gives a string back if and only if it has no control character but tab. |
| YamlScalars.PrintableSafe | hub/src/main/resources/swagger-ui/swagger-ui-standalone-preset.js:21 | Printable strings, the ones the dumper puts in single quotes, are among those. |
| YamlFolding.BreakIsSpace | hub/src/main/resources/swagger-ui/swagger-ui-standalone-preset.js:21 | In either quoted form a line feed, a carriage return, or both, with any white space behind, is read as one space between the texts. |
| YamlFolding.BreaksAreFeeds | hub/src/main/resources/swagger-ui/swagger-ui-standalone-preset.js:21 | In either form n + 1 line breaks in a row, white space between them dropped, are read as n line feeds. |
| YamlFolding.EscapedBreakIsNothing | hub/src/main/resources/swagger-ui/swagger-ui-standalone-preset.js:21 | In double quotes a backslash before line breaks drops them and the white space behind. |
| YamlFolding.FlowLines | hub/src/main/resources/swagger-ui/swagger-ui-standalone-preset.js:21 | A scalar over any number of lines is its texts with each stretch of breaks between them folded in this way, or dropped if escaped. |
| YamlFolding.MarkerIsError | hub/src/main/resources/swagger-ui/swagger-ui-standalone-preset.js:21 | Three dashes or dots at the start of a line, before white space, a break or the end, are an error in either form. |
| YamlFolding.ControlIsError | hub/src/main/resources/swagger-ui/swagger-ui-standalone-preset.js:21 | A control character other than tab and line breaks is an error in either form. |
| YamlFolding.UnclosedIsError | hub/src/main/resources/swagger-ui/swagger-ui-standalone-preset.js:21 | A scalar without its closing quote is an error. |
| YamlEscapes.NamedRead | hub/src/main/resources/swagger-ui/swagger-ui-standalone-preset.js:21 | Each of the eighteen named escapes is read as its character. |
| YamlEscapes.NoOther | hub/src/main/resources/swagger-ui/swagger-ui-standalone-preset.js:21 | Besides the named escapes, the three for codes and escaped breaks, every escape is an error. |
| YamlEscapes.CodeRead | hub/src/main/resources/swagger-ui/swagger-ui-standalone-preset.js:21 | A code of two, four or eight hexadecimal digits in either case is read as its character, a surrogate pair above U+FFFF; from 2^31 on only its low 16 bits are left. |
| YamlEscapes.CodeError | hub/src/main/resources/swagger-ui/swagger-ui-standalone-preset.js:21 | A code with too few digits, or with another character among them, is an error. |
| YamlEscapes.DumpNamed | hub/src/main/resources/swagger-ui/swagger-ui-standalone-preset.js:21 | The dumper writes the fifteen characters that have a letter in its table as that escape. |
| YamlEscapes.DumpShown | hub/src/main/resources/swagger-ui/swagger-ui-standalone-preset.js:21 | It writes printable characters other than the quote and the backslash as they are. |
| YamlEscapes.DumpCode | hub/src/main/resources/swagger-ui/swagger-ui-standalone-preset.js:21 | It writes any other unit as \\x and two or \\u and four capital hexadecimal digits. |
| YamlEscapes.DumpPair | hub/src/main/resources/swagger-ui/swagger-ui-standalone-preset.js:21 | It writes a surrogate pair as \\U and the eight digits of its code point. |
| NextTicks.StepInv | hub/src/main/resources/swagger-ui/swagger-ui-standalone-preset.js:1 | Enqueueing, running, returning, throwing and both timers keep the invariant of the queue. |
| NextTicks.RunInv | hub/src/main/resources/swagger-ui/swagger-ui-standalone-preset.js:1 | Every reachable state has the invariant. |
| NextTicks.RunsInOrder | hub/src/main/resources/swagger-ui/swagger-ui-standalone-preset.js:1 | Tasks start in the order they were queued, none twice; when no timer is pending and none runs, all have started, whichever threw. |
| NextTicks.TickQueue.DrainQueue | hub/src/main/resources/swagger-ui/swagger-ui-standalone-preset.js:1 | drainQueue starts the loop, unless one is under way. |
| NextTicks.TickQueue.Loop | hub/src/main/resources/swagger-ui/swagger-ui-standalone-preset.js:1 | The loop goes on to the next task, to the next queue, or ends. |
| NextTicks.TickQueue.OnDrainTimer | hub/src/main/resources/swagger-ui/swagger-ui-standalone-preset.js:1 | The drain timer takes the step of the machine. |
| NextTicks.TickQueue.OnCleanupTimer | hub/src/main/resources/swagger-ui/swagger-ui-standalone-preset.js:1 | The clean-up (`p`) puts the current queue back in front and resumes behind the thrower. |
| LruQueues.LruQueue.Hit | hub/src/main/resources/swagger-ui/swagger-ui-standalone-preset.js:21 | hit makes the id the most recent; one too many evicts the least recently hit one, never the id itself. |
| LruQueues.LruQueue.Delete | hub/src/main/resources/swagger-ui/swagger-ui-standalone-preset.js:21 | delete forgets the id and keeps the order of the others. |
| LruQueues.LruQueue.Scan | hub/src/main/resources/swagger-ui/swagger-ui-standalone-preset.js:21 | The scan `for(;!has(queue,++base););` ends, at the oldest tick in use. |
| LruQueues.LruQueue.Clear | hub/src/main/resources/swagger-ui/swagger-ui-standalone-preset.js:21 | clear forgets everything. |
| ArgumentIndex.GetSet | hub/src/main/resources/swagger-ui/swagger-ui-standalone-preset.js:21 | Filing a tuple changes what that tuple gets and nothing else. |
| ArgumentIndex.GetPrune | hub/src/main/resources/swagger-ui/swagger-ui-standalone-preset.js:21 | Deleting a tuple removes it, prunes every emptied branch, and changes nothing else. |
| ArgumentIndex.AgreeSet | hub/src/main/resources/swagger-ui/swagger-ui-standalone-preset.js:21 | Filing a new tuple keeps tree and table in agreement. |
| ArgumentIndex.AgreePrune | hub/src/main/resources/swagger-ui/swagger-ui-standalone-preset.js:21 | Deleting keeps tree and table in agreement. |
| ArgumentIndex.IdsDetermine | hub/src/main/resources/swagger-ui/swagger-ui-standalone-preset.js:21 | Distinct tuples never share an id, and no tuple has two. |
| ArgumentPaths.Edit | hub/src/main/resources/swagger-ui/swagger-ui-standalone-preset.js:21 | Editing one level of the nested arrays replaces exactly what its path of arguments leads to. |
| ArgumentTables.File | hub/src/main/resources/swagger-ui/swagger-ui-standalone-preset.js:21 | The walk of set, which makes the missing levels in place, files the tuple. |
| ArgumentTables.Remove | hub/src/main/resources/swagger-ui/swagger-ui-standalone-preset.js:21 | The walk of delete, down with a stack of levels and indices and up as long as a level is empty, prunes the tuple. |
| ArgumentTables.ArgIndex.GetId | hub/src/main/resources/swagger-ui/swagger-ui-standalone-preset.js:21 | get gives an id exactly when the tuple is in the table, and then its id. |
| ArgumentTables.ArgIndex.SetId | hub/src/main/resources/swagger-ui/swagger-ui-standalone-preset.js:21 | set after a failed get files the tuple under a new id. |
| ArgumentTables.ArgIndex.Delete | hub/src/main/resources/swagger-ui/swagger-ui-standalone-preset.js:21 | delete removes exactly the tuple of the id. |
| ArgumentTables.ArgIndex.Clear | hub/src/main/resources/swagger-ui/swagger-ui-standalone-preset.js:21 | clear empties tree and table; ids are not reused. |
| Memoizing.AnswersDirect | hub/src/main/resources/swagger-ui/swagger-ui-standalone-preset.js:21 | Whatever is called and evicted, a cache that files results under ids the function respects answers as direct calls do. |
| Memoizing.MemoizedIffRespects | hub/src/main/resources/swagger-ui/swagger-ui-standalone-preset.js:21 | All call sequences are answered as direct calls are if and only if the function gives arguments with one id one result. |
| Memoizing.BoundedMemo.Call | hub/src/main/resources/swagger-ui/swagger-ui-standalone-preset.js:21 | A memoized call returns the direct result; argument index, result table and use queue hold the same ids, at most the limit, in order of use. |
| Memoizing.BoundedMemo.Recall | hub/src/main/resources/swagger-ui/swagger-ui-standalone-preset.js:21 | A cached result is returned and becomes the most recent. |
| Memoizing.BoundedMemo.Remember | hub/src/main/resources/swagger-ui/swagger-ui-standalone-preset.js:21 | A new result is cached, and the least recently used makes room. |
| Memoizing.BoundedMemo.Forget | hub/src/main/resources/swagger-ui/swagger-ui-standalone-preset.js:21 | An evicted id leaves argument index and result table. |
| Tagsets.PowerSetKept | utils/create_test_data_cql_file.py:20-30 | compute_power_set yields exactly the selections of the list; their order is TagsetOrder.PowerSetOrder. |
| Tagsets.ProductHas | utils/create_test_data_cql_file.py:49-49 | The Cartesian product holds exactly the tuples with one element of each list. |
| TagsetOrder.PowerSetOrder | utils/create_test_data_cql_file.py:20-30 | compute_power_set lists every selection of places once; sizes never fall, and within one size the places rise lexicographically. |
| TagsetOrder.ProductOrder | utils/create_test_data_cql_file.py:49-49 | The product lists every choice of places once, in lexicographic order of the places. |
| Tagsets.RemoveDuplicates | utils/create_test_data_cql_file.py:79-79 | The ordered dictionary keeps the first occurrences, in order. |
| Tagsets.GenerateDynamicTagsets | utils/create_test_data_cql_file.py:32-86 | The nested loops with dictionary merging produce the reference list; its order is TagsetOrder.TagsetsOrder, its contents Tagsets.TagsetsExact. |
| Tagsets.TagsetsExact | utils/create_test_data_cql_file.py:32-86 | When every tag has a value, the tagsets are exactly the partial assignments, each once. |
| Tagsets.TagsetsComplete | utils/create_test_data_cql_file.py:32-86 | They are the partial assignments if and only if every tag has a value. |
| Tagsets.TagsetsCount | utils/create_test_data_cql_file.py:32-86 | Their number is the product of (distinct values + 1). |
| TagsetOrder.TagsetsOrder | utils/create_test_data_cql_file.py:32-86 | Each tagset stands where the first way of making it stands, by the places of the values chosen, then the number of tags kept, then their places; each is made by that first way, and every way has its tagset. |

## Left out

- `List.shift`, `unshift`, `slice` and a non-zero origin: lists are modelled from index 0, changed at the end only.
- Capacities: list sizes above 2^30, and the `_capacity` field, which equals the size while the origin is 0.
- VectorList.List.Get: an element the arrays have no slot for reads as absent; the code can return `null` or `undefined` for it, and the model has one value for both.
- VectorList.List.Set: a negative index that reaches before the start, for which the code moves the origin, is not modelled.
- VectorSession.RunFromEmpty: the edits are push, pop and set; for edits that do not meet the condition the list is still the one VectorList.List.Push and VectorList.List.Set describe, but not the plain sequence.
- HashMaps.RunRefines: here nodes are values and every update makes new ones; the same operations with edits in place are MapSessions.HeapMap.Update.
- MapIsolation.WithMutations: the operations are set and remove; the owner-matched `clear`, which drops the root, is left out.
- MapNodes.Make: a node's own fields are one value, its shape; the arrays inside it belong to no other node, and only key-value arrays are shared.
- `Set`, `OrderedMap`, `Record`, `Stack` and the lazy `Seq` layer of module 0.
- The writable stream's error paths (a failing `_write`, writes after end, invalid chunks), encodings and `decodeStrings`, and the recycling of `corkedRequestsFree` holders.
- WritableRuns.RunDelivers: `_write` does not call `write` on its own stream before it returns, and the handlers of `prefinish` and `finish` do not call back.
- Readable streams and pipes.
- PromiseRuns.RunReactions: promises are made by the library's own constructor; species, subclass capabilities and domains are left out, so a foreign `reject` that throws out of a flush is not covered.
- Promises.Realm.RunTask: here the microtask list is a sequence with a head position; its linked form is `Microtasks`, where the host's ways to schedule a flush are a counter.
- Tracking of unhandled rejections, and `Promise.race`.
- PromiseCombined.AllOutcome: the elements' `then` is the library's own, and an array of values is no thenable; element promises whose `then` was replaced are the early, late and repeated reports of PromiseAll.ResolvesOnce.
- Promises.Realm.Resolve: whether a value is a thenable is a fact about the value; a getter that answers differently from read to read is not covered.
- The other encodings of StringDecoder (UTF-16, base64, single bytes).
- StringDecoders.StringDecoder.Text: how many bytes of a malformed end of a chunk are kept is not stated, only that what is not decoded is kept.
- `String.fromCharCode` over blocks of 4096 units, which only bounds the number of arguments.
- IntegerBytes.WriteInt: the wrap of `>> 0` to 32 bits, which a byte taken modulo 256 does not show, is left out.
- Floating-point and unsigned readers and writers of module 55; the numbers written are integers, not doubles beyond 2^53.
- YAML plain, block and folded scalars, the choice of a style, indentation warnings, and documents around a scalar.
- NextTicks.RunsInOrder: timers are counters that may fire in any order; a task's arguments are part of the task.
- Memoizing.BoundedMemo.Call: the memoized function is pure and does not call its memoized self; asynchronous, promise and reference-counting modes, and the events, are left out.
- OrderedMaps.OrderedMap.ForEach: the callbacks are a script of edits, one list for each visit; they do not start a nested traversal.
- Tagsets.GenerateDynamicTagsets: tag names are strings; `dict(a, **b)` refuses others.
- Random observations, time stamps, shards and CQL text of the Python generator.
- React components, Redux wiring and request code of the bundles, and the repository's Scala, SQL and configuration files.
