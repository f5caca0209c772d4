# libnstd in Dafny

Models and proofs for the parts of libnstd that are written from scratch and are hard to get right:

- **`LockFreeQueue`, `RingCapacity`, `ThreadPool`, `PoolJobs`, `PoolRoom`** (`src/Future.cpp`): the
  bounded ring with its stamps and ticket counters, and the pool of workers with its two-word signals,
  as state machines over single atomic steps of any number of threads. An inductive invariant holds in every
  interleaving; from it follow the refinement of a bounded FIFO queue, that the pool does not sleep
  on work, that each job handed to it is exactly once on its way, and that a lone producer does not
  sleep on room.
- **`AvlShape`, `AvlHeap`, `AvlCore`, `KeyOrder`, `KeyedItems`, `Map`, `MultiMap`**
  (`include/nstd/Map.hpp`, `include/nstd/MultiMap.hpp`): items on the heap with parent, child, list
  and free-chain pointers and cached heights. Rotations, the loops that stop early, the removal that
  jumps to a node with a stale height, and the position hints are modelled as they are written.
  Both maps share one copy of the tree code, which the source writes down twice. `AvlShape` holds
  the shapes, with a zipper for the way from a hole up to the root; `AvlHeap` ties heap and shape.
- **`SlotLists`, `Callback`** (`src/Callback.cpp`, `include/nstd/Callback.hpp`): signals whose slots
  connect, disconnect, emit and destroy while emissions are running. `Walks`, `Runs` and `Does` say
  what emissions, scripts and actions do, as relations between worlds; the methods are proved to
  follow them.
- **`Texts`, `Unicode`, `JsonText`, `JsonGrammar`, `Json`, `XmlText`, `XmlGrammar`, `Xml`**
  (`src/Document/Json.cpp`, `src/Document/Xml.cpp`, `include/nstd/Unicode.hpp`): the lexers, parsers and
  printers. The `...Text` modules say what is computed, as functions on the remaining text, and prove that
  parsing undoes printing; the `...Grammar` modules write down which texts are accepted and what
  they mean without the parser, and prove that the parser accepts exactly these; `Json` and `Xml` hold
  the stateful parsers and the printers, proved to compute these functions for every input, malformed
  ones included.
- **`Sha256`, `Sha256Example`**: `Sha256Standard` is FIPS 180-4 and RFC 2104 written down, with the
  constants traced back to the roots of primes; `Sha256s` is the program, with its circular schedule,
  rotating registers and byte buffer; `Sha256Example` works out the digest of one message of the
  repository's unit test.
- **`HashMap`** (`include/nstd/HashMap.hpp`): chains with pointers back to the slot that points to an
  item, and the list in insertion order.
- **`ListSort`** (`include/nstd/List.hpp`): the quicksort on links.
- **`Buffer`, `ServerSend`** (`include/nstd/Buffer.hpp`, `src/Socket/Server.cpp`): the sliding window
  of bytes, and the send path with its poll interest. What the kernel accepts is a parameter.

Conventions: a class has the fields of the source's class and ghost fields for what they stand for,
a `Valid` predicate, and methods whose contracts give the whole new meaning. `hide` statements keep
proofs small. Keys are integers and stand for any strict total order; a bucket index is the hash
modulo the capacity, for an arbitrary hash function.

Where the code does something that a reader might not expect, the model follows the code:

- The ring's constructor smears over 32 bits although the size has 64; `LeastPowerOfTwo` says exactly
  for which capacities the size comes out as a power of two, and `GapFails` names some for which it
  does not.
- The pool promises a waking worker only for a job at the front of the queue: `PublishedJobAsleep` is a
  run in which a published job waits behind one that is still being stored.
- A producer that waits for room can miss its wake-up for good when calls of `run` overlap:
  `WakeUpMissed` is such a run. With one call at a time that cannot happen (`NoProducerSleepsOnRoom`).
- `disconnect` and `~Listener` take the first match without looking at its state. `LessMirrored` and
  `ForgottenMirrored` say exactly when the tables of emitter and listener still match afterwards;
  `TwinsBreakTheMatch` leads a hub into the state where they do not. Scripts leave out the actions
  that would break the match.
- A hinted insertion into a `MultiMap` may place an item before others with an equal key.
  `InsertNear` says exactly where it goes, `PlaceIsUpper` when that is the plain place, and
  `HintBeforeEquals` is a map and a hint for which it is not.
- The JSON lexer drops line breaks from strings; `StringBackExactly` and `RoundTrip` say exactly what
  comes back. Of a number without a point only the sign and the leading digits count, so an exponent is
  lost (`JsonGrammar.TokenExactly`). The parser also accepts a comma behind the last item or member, and
  it reads one token behind the value and no further (`ParseExactly`). The lexer reads past the end
  after a final backslash (`ParseStrays`) and only then (`ParseInside`, `StrayExactly`), which is an
  outcome of its own in the model (`Wild`, `Astray`, `Strayed`).
- The XML parser loses white space in front of a slash (`TextComesBack`), refuses line breaks in attribute
  values, which the printer does not escape (`LineBreakRefused`), and does not terminate on a comment
  directly before most texts (`CommentHangs`), though always on text in which no comment begins
  (`ParseEnds`). Not terminating is an outcome of its own in the model (`Endless`, `Hanging`).
- An empty `write` is offered to the kernel, whose answer 0 then counts as a closed connection.

## Model

| member | source | states |
|---|---|---|
| `LockFreeQueue.EveryRun` | src/Future.cpp:298-332 | After any interleaving of any number of `push` and `pop` calls: `_head <= _tail <= _head + capacity`, every slot's two stamps name the one ticket it serves, a slot in transition has an owner, and what a queued slot holds is what was pushed with its ticket |
| `LockFreeQueue.RefinesBoundedFifo` | src/Future.cpp:298-332 | Each atomic step of each run appends one value to a queue of at most `capacity` values (the winning swap of a `push`), takes the front value (the winning swap of a `pop`), or leaves that queue alone |
| `LockFreeQueue.PopReturnsItsTicket` | src/Future.cpp:316-332 | The pop with the k-th ticket returns the value pushed with the k-th ticket, no ticket returns twice, and no step constructs over an object or reads or destroys one that is not there |
| `LockFreeQueue.OneOwnerPerSlot` | src/Future.cpp:298-332 | Between their compare-and-swap and their stamp swap two calls never work on the same slot |
| `LockFreeQueue.NothingLost` | src/Future.cpp:316-332 | Every ticket ever won by a `pop` was returned with its own value, or is in the hands of a call that has not returned |
| `LockFreeQueue.LonePush` | src/Future.cpp:298-313 | With no other call in flight `push` returns false exactly when the queue is full, and otherwise appends its value |
| `LockFreeQueue.LonePop` | src/Future.cpp:316-332 | With no other call in flight `pop` returns false exactly when the queue is empty, and otherwise removes and returns the front |
| `RingCapacity.LeastPowerOfTwo` | src/Future.cpp:261-267 | The ring size is a power of two if and only if the capacity less one has no 32 zero bits in a row below its topmost one bit; then it is the least power of two not below the capacity. Every capacity from 1 to 2^32 qualifies |
| `RingCapacity.GapFails` | src/Future.cpp:261-267 | One more than a power of two from 2^33 on is a capacity for which the size is no power of two |
| `RingCapacity.FirstGap` | src/Future.cpp:261-267 | 2^33 + 1 is one |
| `RingCapacity.MaskIsModulo` | src/Future.cpp:304-304 | Indexing with the mask is then indexing modulo the ring size |
| `RingCapacity.NewQueue` | src/Future.cpp:259-278 | The constructor builds the ring that every run starts from |
| `ThreadPool.EveryPoolRun` | src/Future.cpp:85-95 | The queue invariant and the wake-up invariant hold in every reachable state of the pool, although `set` and `reset` are two steps each and overlap freely |
| `ThreadPool.StepQueue` | src/Future.cpp:174-183 | Every step of a worker or a producer keeps the queue's invariant and leaves the calls of the other threads as they are |
| `ThreadPool.NoWorkerSleepsOnWork` | src/Future.cpp:174-183 | While the front job is published and no producer is between publishing and finishing `set`, some worker is not blocked in `wait` |
| `ThreadPool.NoWorkerSleepsOnQueue` | src/Future.cpp:334-351 | The same for any non-empty queue when no producer is inside a `push` that has won its ticket |
| `ThreadPool.SleepersWaitForTheFront` | src/Future.cpp:174-183 | When all workers are blocked, nobody is in `set` and a job is queued, then the front is unpublished and a producer still holds the front ticket |
| `ThreadPool.PublishedJobAsleep` | src/Future.cpp:310-312 | A run of 23 steps in which a published job is queued, nobody is in `set`, and the only worker is blocked: the job in front of it is still being stored. So the condition on the front is needed |
| `ThreadPool.JobsRunOnce` | src/Future.cpp:174-191 | Each popped job is started at most once, by a worker that runs the very job its ticket was pushed for, and no popped job is dropped on the way |
| `PoolJobs.RunDelivers` | src/Future.cpp:85-95 | A producer that has left the loop of `run` has won a ticket, and the value logged for the ticket is the very job that this call of `run` was given; no other ticket stands for that job |
| `PoolJobs.EveryJobOnce` | src/Future.cpp:85-95 | In every run each job handed to `run` is either with one producer that is still in the loop, without a ticket, or stands for exactly one ticket; never both, never neither |
| `PoolJobs.EveryJobRunsOnce` | src/Future.cpp:85-191 | From there on it is queued, inside a `pop`, with a worker that is about to start it, or started; no job is started twice, and a worker runs the very job that was handed in |
| `PoolRoom.NoProducerSleepsOnRoom` | src/Future.cpp:88-94 | With one call of `run` at a time: while the slot of the next ticket is free and no worker is between freeing a slot and finishing `set`, no producer is blocked |
| `PoolRoom.NoProducerSleepsOnQueue` | src/Future.cpp:88-94 | The same while the queue is not full and no `pop` that has won a ticket is under way |
| `PoolRoom.WakeUpMissed` | src/Future.cpp:334-351 | With three producers it is false, for good: a run after which the queue is empty, a producer sleeps with its job, and no thread can move. A worker's `set` fell between the two halves of another producer's `reset` |
| `AvlShape.RebalanceWorks` | include/nstd/Map.hpp:471-540 | Rebalancing a tree that is off balance by one level at its root restores balance, keeps order and items, and lowers it by at most one level |
| `AvlShape.GrowBalance` | include/nstd/Map.hpp:326-334 | Why stopping at an unchanged height is right: one level up a hole off by at most one level makes a subtree that is off by at most one level after rebalancing |
| `AvlShape.HeightNeedsItems` | include/nstd/Map.hpp:365-372 | A balanced tree of height h has at least Fib(h + 2) - 1 items |
| `AvlShape.LogarithmicHeight` | include/nstd/Map.hpp:365-372 | So the height is at most logarithmic in the number of items |
| `AvlHeap.Avl.RotateRightAt` | include/nstd/Map.hpp:496-509 | `rotr` through any cell, with all parent pointers, is a right rotation of the shape; everything around it keeps its links and cached heights |
| `AvlHeap.Avl.RotateLeftAt` | include/nstd/Map.hpp:511-524 | `rotl` likewise |
| `AvlHeap.Avl.Rebal` | include/nstd/Map.hpp:471-494 | `rebal` turns the subtree into the rebalanced shape with correct cached heights, finding the cell through the parent |
| `AvlHeap.Avl.RebalanceUpwards` | include/nstd/Map.hpp:326-334 | The loop that stops at the first unchanged height leaves a whole AVL tree: links, parents, heights and slopes right everywhere, order unchanged |
| `AvlHeap.Avl.RebalanceReplaced` | include/nstd/Map.hpp:308-324 | The loop of `remove` with the jump to the replacement node, which still caches the height of its old place: it ends where the second loop can start |
| `AvlHeap.Avl.RemoveNarrow` | include/nstd/Map.hpp:205-223 | An item with at most one child: the child moves up and the rest of the tree waits only for rebalancing |
| `AvlHeap.Avl.RemoveWide` | include/nstd/Map.hpp:225-306 | An item with two children: the neighbour from the higher side takes its place, direct child or deeper down |
| `AvlHeap.Avl.Remove` | include/nstd/Map.hpp:195-334 | Removing any item of any AVL tree leaves an AVL tree with right cached heights, slopes and parents, with exactly that item gone and the order of the others unchanged |
| `AvlCore.Core.Take` | include/nstd/Map.hpp:396-411 | An item from the free chain, or the last of a fresh block of four |
| `AvlCore.Core.Attach` | include/nstd/Map.hpp:391-447 | Insertion at an empty cell: the list goes on being the in-order traversal, the tree stays AVL, exactly one item is added, taken from the free chain when there is one |
| `AvlCore.Core.Remove` | include/nstd/Map.hpp:195-346 | Tree, list, size and free chain together: the item is gone from the order, and its storage is the head of the free chain |
| `AvlCore.Core.Clear` | include/nstd/Map.hpp:87-99 | The map is empty and every item's storage is on the free chain |
| `KeyOrder.PutMap` | include/nstd/Map.hpp:449-468 | Setting a key in an ascending list is a map update |
| `KeyOrder.DelMap` | include/nstd/Map.hpp:188-193 | Deleting a key from an ascending list takes it out of the map |
| `KeyOrder.PutAllMap` | include/nstd/Map.hpp:160-169 | Inserting another map one entry after the other is the union in which the other map wins |
| `KeyOrder.SameMap` | include/nstd/Map.hpp:101-119 | An ascending list is determined by its finite map |
| `KeyOrder.EveryHistory` | include/nstd/Map.hpp:123-169 | After every sequence of insertions, merges, removals and clears the contents are the finite map these make, in strictly ascending key order, and the size is the map's size |
| `Maps.Map.Find` | include/nstd/Map.hpp:101-119 | Agrees with the finite map for every key; the items it visits are the way from the root by comparing keys, and there are at most as many as the tree is high |
| `Maps.Map.InsertAt` | include/nstd/Map.hpp:389-469 | Insertion from any cell on the way to the key sets the key in the contents |
| `Maps.Map.Insert` | include/nstd/Map.hpp:155-158 | Sets the key in the contents and keeps all invariants |
| `Maps.Map.InsertNear` | include/nstd/Map.hpp:123-153 | With any valid position as a hint, right or wrong, the contents become the same as without one |
| `Maps.Map.InsertAll` | include/nstd/Map.hpp:160-169 | Inserts every entry of the other map, each result being the hint for the next; the other map stays as it is, and a map merged into itself stays as it is |
| `Maps.Map.RemoveAt` | include/nstd/Map.hpp:195-346 | Removes exactly the item of the position and returns the position after it |
| `Maps.Map.Remove` | include/nstd/Map.hpp:188-193 | Removes the key if it is there |
| `Maps.Map.Clear` | include/nstd/Map.hpp:87-99 | Leaves a valid empty map |
| `Maps.Map.LookupIsLogarithmic` | include/nstd/Map.hpp:101-119 | Every map has at least Fib(h + 2) - 1 items for its height h, and `_size` is the size of the finite map |
| `KeyOrder.PlainInsertion` | include/nstd/MultiMap.hpp:426-439 | The place of a plain insertion keeps keys non-decreasing, adds exactly one entry, and lies after every entry with an equal key |
| `KeyOrder.PlaceIsUpper` | include/nstd/MultiMap.hpp:426-439 | The smaller of the plain place and a place `top` is the plain place if and only if no item from `top` on has a key that is equal or smaller: the run of equal keys ends before `top` |
| `KeyOrder.EveryMultiStep` | include/nstd/MultiMap.hpp:117-147 | Every step keeps keys non-decreasing, and nothing but its own entry comes or goes |
| `MultiMaps.MultiMap.Find` | include/nstd/MultiMap.hpp:84-102 | Returns an item of the key if and only if there is one; the items it visits are the way from the root by comparing keys, and there are at most as many as the tree is high |
| `MultiMaps.MultiMap.InsertAt` | include/nstd/MultiMap.hpp:367-441 | Insertion from a cell on the way: the exact place of the new item among equal keys, which depends on where the search begins, through every rotation |
| `MultiMaps.MultiMap.Insert` | include/nstd/MultiMap.hpp:144-147 | The new item is placed in the list directly after all existing items with an equal or smaller key |
| `MultiMaps.MultiMap.InsertNear` | include/nstd/MultiMap.hpp:117-142 | With any valid hint keys stay non-decreasing, and the exact place of the new item: when the key is neither below the hint's nor above the next item's, the smaller of the plain place and the one behind the hint and its right subtree; in every other case the plain place |
| `MultiMaps.HintBeforeEquals` | include/nstd/MultiMap.hpp:117-142 | In a map of three items with one key, of which the middle one is the root, the first item as a hint puts the new item second |
| `MultiMaps.MultiMap.RemoveAt` | include/nstd/MultiMap.hpp:173-324 | Removes exactly that item and no other with the same key; returns the next position |
| `MultiMaps.MultiMap.Remove` | include/nstd/MultiMap.hpp:166-171 | Removes one item of the key if there is one |
| `MultiMaps.MultiMap.Clear` | include/nstd/MultiMap.hpp:70-82 | Leaves a valid empty map |
| `MultiMaps.MultiMap.LookupIsLogarithmic` | include/nstd/MultiMap.hpp:84-102 | The Fibonacci bound for this tree |
| `SlotLists.DropFirstLive` | src/Callback.cpp:134-145 | Dropping the first match, by mark or by removal, takes one live entry of its own pair exactly when that match is live, and none of any other pair |
| `SlotLists.RemoveSignalCount` | src/Callback.cpp:149-154 | The listener's half drops exactly one record of the pair if there is one |
| `SlotLists.NoTwinsMatch` | src/Callback.cpp:134-145 | Without a second entry for the same receiver and slot every drop hits the live entry |
| `Callbacks.LessMirrored` | src/Callback.cpp:127-155 | After a disconnection the two tables match if and only if the pair had no live entry or its first match was live |
| `Callbacks.ForgottenMirrored` | src/Callback.cpp:75-103 | After a listener's destructor the tables match if and only if each of its pairs at a signal under emission had one live entry, as the first match |
| `Callbacks.TwinsBreakTheMatch` | src/Callback.cpp:134-145 | A hub gets there: connect a pair twice, begin an emission, disconnect twice; the second entry stays live with no record of it |
| `SlotLists.SweepLive` | src/Callback.cpp:56-66 | The sweep at the end of the outermost emission keeps the live entries of every pair |
| `SlotLists.SweepConnects` | src/Callback.cpp:56-66 | After it all entries are connected, in their old order |
| `Callbacks.LiveReceiver` | include/nstd/Callback.hpp:42-43 | The receiver of a live entry is a living listener that has a record of it |
| `Callbacks.Hub.Connect` | src/Callback.cpp:105-125 | Appends to both tables, as `connecting` under an emission; for every emitter and listener the tables keep mirroring each other and no enclosing emission is disturbed |
| `Callbacks.Hub.DropSlot` | src/Callback.cpp:134-145 | The emitter's half of a disconnection: the loop finds the first match |
| `Callbacks.Hub.Disconnect` | src/Callback.cpp:127-155 | Drops the first match on both sides, twins or not; all invariants but the match of the tables are kept in every case, and that one exactly when the drop hits a live entry or there is none |
| `Callbacks.Hub.ForgetSlots` | src/Callback.cpp:12-28 | Takes the records of all live entries of one signal out of the receivers' tables |
| `Callbacks.Hub.DeleteEmitter` | src/Callback.cpp:4-30 | No listener keeps a record of the emitter, and every running emission of it is invalidated |
| `Callbacks.Hub.ForgetSignals` | src/Callback.cpp:80-101 | Drops an entry for each of one listener's records out of one emitter's lists, and says for every pair how many live entries are left |
| `Callbacks.Hub.DeleteListener` | src/Callback.cpp:75-103 | Keeps all invariants but the match of the tables in every case, and that one exactly when no pair under emission has a twin or a masked entry; then no live entry for the listener is left |
| `Callbacks.Hub.Activate` | src/Callback.cpp:32-48 | Pushes an activation that points to the enclosing one of the same signal |
| `Callbacks.Hub.SweepSlots` | src/Callback.cpp:56-66 | The loop computes the sweep |
| `Callbacks.Hub.Deactivate` | src/Callback.cpp:50-72 | Pops the activation; when it was the outermost and the emitter lives, the list is swept and `dirty` is false; an invalidation is handed on to the enclosing activation |
| `Callbacks.Hub.Visit` | include/nstd/Callback.hpp:42-43 | One turn of the emission: the entry reached is called exactly once if it is connected and not otherwise, and may do anything allowed |
| `Callbacks.Hub.Walk` | include/nstd/Callback.hpp:42-43 | The loop of an emission: its own calls since it began are exactly the recorded ones, in connection order and at most once each; calls of nested code are deeper; and the world goes where the relation `Walks` on worlds says |
| `Callbacks.Hub.Emit` | include/nstd/Callback.hpp:42-43 | For arbitrary nested actions inside the slots: makes no call but, in connection order and at most once each, those of slots that were connected when it began, and leaves one out only when it was dropped or the emitter destroyed before a later one was reached; neither it nor any emission of the signal nested in it calls a slot added since it began; when the outermost emission ends with the emitter alive, every entry is connected and `dirty` is false |
| `Callbacks.Hub.Perform` | include/nstd/Callback.hpp:42-43 | Does what the relation `Does` says of the action: the tables, the stack and the history afterwards |
| `Callbacks.Hub.Run` | include/nstd/Callback.hpp:42-43 | Any script of connects, disconnects, emissions and destructions that keeps the tables matching keeps all invariants, only evolves the emissions around it, makes every emission in it deliver, and leads to a world that the relation `Runs` on scripts and worlds allows |
| `Callbacks.RunProgram` | include/nstd/Callback.hpp:42-43 | After every program, run from the empty world as `Runs` says: every list is clean, every emission, however deeply nested, has made exactly its own calls and called nothing that was added since it began, and in the whole history no call came after its entry was dropped, its emitter destroyed or its receiver destroyed |
| `JsonText.StringBack` | src/Document/Json.cpp:375-402 | Reading an escaped string gives the string back without its line breaks, for every string without NUL |
| `JsonText.StringBackExactly` | src/Document/Json.cpp:82-90 | So it comes back as it was if and only if it has no line break |
| `Texts.DigitsBack` | src/Document/Json.cpp:208-252 | The decimal digits of a number read back as the number |
| `JsonText.IntBack` | src/Document/Json.cpp:208-252 | So does every integer of 64 bits with its sign, as one number token |
| `JsonText.ItemsBack` | src/Document/Json.cpp:328-349 | The printed lines of a list, up to the bracket, parse back |
| `JsonText.MembersBack` | src/Document/Json.cpp:295-326 | The printed lines of a map parse back in the same order, with keys that meet once their line breaks are gone merged |
| `JsonText.ValueBack` | src/Document/Json.cpp:404-494 | Every printed value parses back, at every indentation and before any text that starts with a token |
| `JsonText.ReturnedUnchanged` | src/Document/Json.cpp:404-494 | What comes back is the value itself, with arrays as lists, if and only if no string and no key in it has a line break |
| `JsonText.RoundTrip` | src/Document/Json.cpp:351-372 | For every nesting of null, bools, 64-bit integers, texts of doubles, NUL-free strings, lists, arrays and maps, parsing printed JSON gives a known value, and the original, arrays as lists, if and only if no string or key has a line break |
| `JsonText.EscapeBack` | src/Document/Json.cpp:122-161 | A four-digit escape that is no high surrogate reads as the UTF-8 form of its number |
| `JsonText.PairBack` | src/Document/Json.cpp:137-157 | A surrogate pair reads as the UTF-8 form of its code point, and a high surrogate before anything but a low one is an error |
| `JsonText.ParseInside` | src/Document/Json.cpp:91-170 | The parser stays inside every text that does not end in a backslash |
| `JsonText.StrayExactly` | src/Document/Json.cpp:91-170 | With a backslash for its closing quote a string token reads past the end if and only if with the quote it is read to the very end |
| `JsonText.ParseStrays` | src/Document/Json.cpp:91-170 | So every escaped NUL-free string with a backslash for its closing quote leads the lexer and the parser past the end of the text |
| `JsonText.ValueIsText` | src/Document/Json.cpp:404-494 | What is printed has no NUL in it, so the parser sees all of it |
| `JsonGrammar.StringExactly` | src/Document/Json.cpp:72-178 | Section 7 of RFC 8259, and what the code adds to it: a string token is read if and only if it is spelled by the rules, character by character, and what is read is what the rules say: the eight short escapes, `\u` escapes in either case, surrogate pairs; any other character behind a backslash stays with it, and a raw line break is dropped |
| `JsonGrammar.TokenExactly` | src/Document/Json.cpp:56-283 | A token is read if and only if white space and then a spelling of it come next: the end, a mark, a word, a string, or a number as far as its characters go, which is kept as text when it has a point and is otherwise its sign and leading digits within 64 bits |
| `JsonGrammar.ParseExactly` | src/Document/Json.cpp:295-372 | The parser accepts a text if and only if its tokens are those of a tree (lists and maps with commas between, and possibly one behind the last) and a token follows; what it returns is what the tree means |
| `JsonGrammar.IntSpelled` | src/Document/Json.cpp:411-418 | A printed integer has a sign only when it is negative, and no zero in front |
| `JsonGrammar.Layout` | src/Document/Json.cpp:404-494 | An example of the layout: one member or item a line, a tab for each level |
| `Texts.PutLookup` | include/nstd/HashMap.hpp:160-219 | Putting a key: the last value of the key counts, every other key keeps its value, and every key its place |
| `Json.Parser.SkipSpace` | src/Document/Json.cpp:258-278 | The loop skips exactly the white space |
| `Json.Parser.ReadHex` | src/Document/Json.cpp:125-136 | Four hexadecimal digits, or an error |
| `Json.Parser.ReadUnicodeEscape` | src/Document/Json.cpp:122-161 | Computes what the lexer function says about `\u` escapes |
| `Json.Parser.ReadStringToken` | src/Document/Json.cpp:73-180 | The character loop computes the string function, for every text |
| `Json.Parser.ReadEscape` | src/Document/Json.cpp:91-170 | What a backslash starts; a backslash at the end of the text reads past it |
| `Json.Parser.ReadNumber` | src/Document/Json.cpp:208-252 | The longest run of number characters and its value |
| `Json.Parser.ReadToken` | src/Document/Json.cpp:56-255 | Computes the token function for every text, errors included |
| `Json.Parser.ParseValue` | src/Document/Json.cpp:351-372 | Computes the parser function |
| `Json.Parser.ParseArray` | src/Document/Json.cpp:328-349 | Computes the parser function for a list |
| `Json.Parser.ParseObject` | src/Document/Json.cpp:295-326 | Computes the parser function for a map; a repeated key keeps its place and takes the last value |
| `Json.Parser.Parse` | src/Document/Json.cpp:496-507 | Computes the parser function for the whole text |
| `Json.Printer.AppendEscapedString` | src/Document/Json.cpp:375-402 | The search loop appends the quoted form |
| `Json.Printer.AppendVariant` | src/Document/Json.cpp:404-494 | Appends the printed form of the value |
| `Json.ToString` | src/Document/Json.cpp:597-603 | The printed form and a line break |
| `Json.PrintAndParse` | src/Document/Json.cpp:496-507 | The printer and the parser run one after the other return that value |
| `XmlText.UnescapeBack` | src/Document/Xml.cpp:212-300 | Unescaping an escaped string gives the string back, for every string |
| `XmlText.EntityShrinks` | src/Document/Xml.cpp:212-265 | No entity stands for more characters than it is long, so unescaping fits into storage of the source's length |
| `XmlText.EscapeHides` | src/Document/Xml.cpp:267-300 | Escaped text has no quote and no bracket in it, and no NUL or line break that was not there before |
| `XmlGrammar.PredefinedEntities` | src/Document/Xml.cpp:73-74 | The five entities of section 4.6 of XML 1.0 stand for their characters |
| `XmlGrammar.NumberReference` | src/Document/Xml.cpp:237-249 | A reference by number, white space and sign included, stands for the UTF-8 form of its code point, or for nothing when the number is no code point |
| `XmlGrammar.DecimalReference` | src/Document/Xml.cpp:237-249 | In particular plain decimal digits stand for the code point with that number |
| `XmlGrammar.OtherReference` | src/Document/Xml.cpp:226-264 | An ampersand before anything else up to a semicolon stays, and unescaping goes on behind it |
| `XmlGrammar.NoSemicolon` | src/Document/Xml.cpp:228-233 | Without a semicolon nothing is replaced |
| `XmlGrammar.TestText` | test/UnitTest/TestXml.cpp:9-16 | The text of the unit test comes out as the test expects |
| `XmlText.AttributesBack` | src/Document/Xml.cpp:343-365 | Printed attributes with distinct names parse back in order |
| `XmlText.LineBreakRefused` | src/Document/Xml.cpp:104-120 | A value with a line break prints to a string that the lexer refuses, so the restriction to one line is exact |
| `XmlText.TextComesBack` | src/Document/Xml.cpp:366-387 | A NUL-free text between two tags comes back if and only if it is not all white space and has no slash behind leading white space |
| `XmlText.CommentHangs` | src/Document/Xml.cpp:366-387 | Exactly what any comment directly before any text does: white space alone goes; a slash behind white space makes the white space go; with every other text the loop makes no progress |
| `XmlText.NoDashInside` | src/Document/Xml.cpp:160-199 | Every comment without a dash inside is one of these |
| `XmlText.ParseEnds` | src/Document/Xml.cpp:302-399 | Parsing any text, well-formed or not, in which no comment begins comes to an end |
| `XmlText.ContentBack` | src/Document/Xml.cpp:366-387 | Printed content without adjacent texts parses back |
| `XmlText.ElementBack` | src/Document/Xml.cpp:334-399 | A printed element parses back before any text |
| `XmlText.RoundTrip` | src/Document/Xml.cpp:497-534 | Parsing `Element::toString` gives the same tree, up to line and column |
| `XmlText.DocumentBack` | src/Document/Xml.cpp:490-495 | So does parsing the whole document with its declaration |
| `XmlGrammar.SpaceExactly` | src/Document/Xml.cpp:142-202 | The lexer skips exactly the white space and the comments at the start; a comment without an end takes the rest |
| `XmlGrammar.TokenExactly` | src/Document/Xml.cpp:76-140 | A token is read if and only if white space and comments and then a spelling of it come next: a bracket or mark, a string on one line between two quotes of the same kind, unescaped, or a name as far as its characters go |
| `XmlGrammar.ElementExactly` | src/Document/Xml.cpp:334-399 | The text of an element is accepted if and only if it starts with the lexemes of a tree: the end tag has the name of the start tag, and of attributes with the same name the last value counts; what is returned is what the tree means |
| `XmlGrammar.InstructionExactly` | src/Document/Xml.cpp:310-328 | What is skipped behind `<?` is the rest of an instruction |
| `XmlGrammar.DocumentExactly` | src/Document/Xml.cpp:302-332 | A whole text is accepted if and only if, after white space, comments and instructions, it starts with the lexemes of a tree |
| `XmlGrammar.Layout` | src/Document/Xml.cpp:497-534 | An example of a printed element |
| `Xml.Storage.Detach` | include/nstd/String.hpp:492-525 | The old characters survive a move of the storage only up to the old length |
| `Xml.Storage.Reserve` | include/nstd/String.hpp:142-142 | The length and the characters before it stay |
| `Xml.EscapeString` | src/Document/Xml.cpp:267-300 | Computes the escaped string, and no write is past the reserved capacity |
| `Xml.WriteEntity` | src/Document/Xml.cpp:281-294 | The reservation leaves room for the rest of the source string |
| `Xml.UnescapeString` | src/Document/Xml.cpp:212-265 | Computes the unescaped string, in storage of the length of the source |
| `Xml.UnescapeAt` | src/Document/Xml.cpp:223-262 | One character or one entity; what is written never overtakes what is read |
| `Xml.Parser.SkipSpace` | src/Document/Xml.cpp:142-203 | Skips exactly white space and comments |
| `Xml.Parser.ReadToken` | src/Document/Xml.cpp:76-140 | Computes the token function for every text |
| `Xml.Parser.ParseAttributes` | src/Document/Xml.cpp:343-365 | Computes the rest of a start tag |
| `Xml.Parser.ParseElement` | src/Document/Xml.cpp:334-399 | Computes the parser function |
| `Xml.Parser.ParseContent` | src/Document/Xml.cpp:366-387 | Computes the content, with the position put back before a text only when a token was read |
| `Xml.Parser.ParseText` | src/Document/Xml.cpp:401-434 | The text up to the next bracket, unescaped |
| `Xml.Parser.SkipHeader` | src/Document/Xml.cpp:307-326 | Past the processing instructions |
| `Xml.Parser.Parse` | src/Document/Xml.cpp:302-332 | Computes the parser function for the whole text |
| `Xml.ElementToString` | src/Document/Xml.cpp:497-534 | The loops append the printed form of the element |
| `Xml.ToString` | src/Document/Xml.cpp:490-495 | The printed form of the document |
| `Xml.PrintAndParse` | src/Document/Xml.cpp:302-332 | The printer and the parser run one after the other return the tree |
| `Sha256Standard.PadFillsBlocks` | src/Crypto/Sha256.cpp:207-219 | Padded as in section 5.1.1 every message is a whole number of blocks |
| `Sha256Standard.ConstantsAreCubeRoots` | src/Crypto/Sha256.cpp:150-167 | Section 4.2.2: the table holds the first 32 bits of the fractional parts of the cube roots of the first 64 primes |
| `Sha256Standard.StartIsSquareRoots` | src/Crypto/Sha256.cpp:172-179 | Section 5.3.3: the initial state holds those of the square roots of the first eight |
| `Sha256Standard.WordBack` | src/Crypto/Sha256.cpp:138-145 | The four bytes of a word, most significant first, read back as the word |
| `Sha256Example.TestDigest` | test/UnitTest/TestSha256.cpp:13-17 | The digest of the message of the unit test is the one that the test expects, worked out through all 64 rounds |
| `Sha256s.QuickForms` | src/Crypto/Sha256.cpp:40-41 | The rewritten `Ch` and `Maj` are those of the standard |
| `Sha256s.NextScheduled` | src/Crypto/Sha256.cpp:37-38 | The sixteen-word circular schedule yields word t of the full schedule and goes on holding the last sixteen |
| `Sha256s.TurnedIsRound` | src/Crypto/Sha256.cpp:43-50 | One turn on the rotating file, where two cells change, is one round on the eight working variables |
| `Sha256s.NextWord` | src/Crypto/Sha256.cpp:37-38 | `blk0` and `blk2` compute the next schedule word in place |
| `Sha256s.Turn` | src/Crypto/Sha256.cpp:70-71 | The macro `R(i)` computes one round of the standard in place |
| `Sha256s.AllRounds` | src/Crypto/Sha256.cpp:107-115 | The two nested loops compute all 64 rounds |
| `Sha256s.Transform` | src/Crypto/Sha256.cpp:87-134 | Computes the compression function of section 6.2.2 of FIPS 180-4 for every state and block |
| `Sha256s.Sha256.WriteByteBlock` | src/Crypto/Sha256.cpp:137-148 | Absorbs a full buffer |
| `Sha256s.Sha256.UpdateByte` | src/Crypto/Sha256.cpp:188-198 | One byte more of the message; a full buffer is absorbed |
| `Sha256s.Sha256.Update` | src/Crypto/Sha256.cpp:184-199 | The object stands for the old message followed by the data, however the message is split |
| `Sha256s.Sha256.PutZeros` | src/Crypto/Sha256.cpp:208-214 | The loop writes exactly the zero bytes of section 5.1.1, over a block boundary when it must |
| `Sha256s.Sha256.PutLength` | src/Crypto/Sha256.cpp:215-219 | The loop writes the length in bits, most significant byte first |
| `Sha256s.Sha256.Finalize` | src/Crypto/Sha256.cpp:201-231 | The digest is the hash of everything since the last reset, and the object is reset |
| `Sha256s.Sha256.OneShot` | include/nstd/Crypto/Sha256.hpp:19-24 | The hash of one piece of data |
| `Sha256s.Sha256.FillKey` | include/nstd/Crypto/Sha256.hpp:28-41 | The key for a block: hashed when too long, filled up with zeros |
| `Sha256s.Sha256.MakePads` | include/nstd/Crypto/Sha256.hpp:43-49 | The two masked keys |
| `Sha256s.Sha256.Digest` | include/nstd/Crypto/Sha256.hpp:50-56 | The inner and the outer hash with the one object |
| `Sha256s.Sha256.Hmac` | include/nstd/Crypto/Sha256.hpp:26-57 | The function of section 2 of RFC 2104 for every key length |
| `HashMaps.InsertedGet` | include/nstd/HashMap.hpp:160-168 | An insertion changes what its own key gives, unless the key is there and not to be overwritten, and nothing else |
| `HashMaps.RemovedGet` | include/nstd/HashMap.hpp:221-239 | A removal takes its own key away and nothing else |
| `HashMaps.EveryHistory` | include/nstd/HashMap.hpp:94-246 | After every sequence of insertions at any place, removals and clears, keys are unique and each looks up as in the finite map of the history |
| `HashMaps.EveryTwoHistory` | include/nstd/HashMap.hpp:94-246 | Two maps agree with their finite maps after every history of changes to either and exchanges of their contents |
| `HashMaps.HashMap.Find` | include/nstd/HashMap.hpp:145-156 | For any hash function the chain finds what a linear search of the list finds |
| `HashMaps.HashMap.LinkChain` | include/nstd/HashMap.hpp:203-207 | The new item heads its chain, and `cell` of the old head points into it |
| `HashMaps.HashMap.UnlinkChain` | include/nstd/HashMap.hpp:225-226 | Through its `cell` an item leaves its chain, wherever it is |
| `HashMaps.HashMap.Insert` | include/nstd/HashMap.hpp:160-219 | Inserts before any position or overwrites in place: list, chains, back pointers, size and free chain stay right, the contents are the insertion-ordered ones, and storage grows by fresh objects only |
| `HashMaps.HashMap.RemoveAt` | include/nstd/HashMap.hpp:221-239 | Exactly that item leaves list and chain, and its storage stays the map's; returns the position after it |
| `HashMaps.HashMap.Remove` | include/nstd/HashMap.hpp:241-246 | Removes the key if it is there |
| `HashMaps.HashMap.Clear` | include/nstd/HashMap.hpp:94-106 | Empties list and every bucket through the back pointers alone; all storage is free |
| `HashMaps.HashMap.Swap` | include/nstd/HashMap.hpp:108-143 | Each map becomes what the other was, with the lists tied to the right end items, and both stay valid and separate, with no storage gained or lost; swapping a map with itself changes nothing |
| `HashMaps.PlayStep` | include/nstd/HashMap.hpp:94-246 | One step of a history of two separate maps, an exchange among them: both stay valid and separate and hold what the history says |
| `HashMaps.PlayAll` | include/nstd/HashMap.hpp:94-246 | Two maps after every such history |
| `ListSort.Partition` | include/nstd/List.hpp:235-251 | The loop over the links splits the values at the pivot |
| `ListSort.SortBetween` | include/nstd/List.hpp:233-255 | Terminates and sorts the values between two items, rearranging only those |
| `ListSort.List.Sort` | include/nstd/List.hpp:221-258 | For every total preorder and every list, with duplicates or sorted already: the values become a sorted permutation, and links and size stay |
| `Buffers.Buffer.Resize` | include/nstd/Buffer.hpp:144-171 | The old bytes stay at the front, wherever the window stands and whether it slides, moves or grows |
| `Buffers.Buffer.Append` | include/nstd/Buffer.hpp:129-134 | The contents become the old ones followed by the data |
| `Buffers.Buffer.Prepend` | include/nstd/Buffer.hpp:98-125 | The contents become the data followed by the old ones |
| `Buffers.Buffer.RemoveFront` | include/nstd/Buffer.hpp:173-178 | Drops bytes from the front, all of them when there are fewer |
| `Buffers.Buffer.RemoveBack` | include/nstd/Buffer.hpp:180-187 | Drops bytes from the back |
| `Buffers.Buffer.Reserve` | include/nstd/Buffer.hpp:192-204 | Keeps the contents, grows the capacity, and moves to a fresh block or none |
| `Buffers.Buffer.Free` | include/nstd/Buffer.hpp:235-241 | Empties the buffer and gives its block back |
| `ServerSend.Client.Write` | src/Socket/Server.cpp:431-467 | For every piece of data, empty or not, and whatever part the kernel takes: bytes sent followed by the send buffer are the accepted writes, and the poll interest fits; false exactly when nothing was accepted |
| `ServerSend.Client.Writable` | src/Socket/Server.cpp:323-352 | The write branch sends on from the buffer with the same invariant, reports `onWrite` exactly when the buffer is empty and `onClosed` exactly on an error |
| `ServerSend.Client.Suspend` | src/Socket/Server.cpp:492-498 | Keeps the invariant: interest in reading is gone, interest in writing stays |
| `ServerSend.Client.Resume` | src/Socket/Server.cpp:500-506 | Keeps the invariant: interest in reading is back |
| `Unicode.Append` | include/nstd/Unicode.hpp:27-75 | Appends the UTF-8 form of a code point, or leaves the string alone and says so |
| `Unicode.AppendAll` | include/nstd/Unicode.hpp:77-83 | Appends the code points among the numbers; true exactly when all are |
| `Unicode.WellFormedExactly` | include/nstd/Unicode.hpp:122-152 | A string is accepted if and only if no byte is above 0xF7, every byte from 0xC0 on has behind it the bytes from 0x80 to 0xBF that it asks for, and no such byte stands anywhere else |
| `Unicode.IsValid` | include/nstd/Unicode.hpp:122-152 | The loop decides this, in both directions |
| `Unicode.FormOf` | include/nstd/Unicode.hpp:47-73 | The shortest form is used, and its bits are those of the code point |
| `Unicode.OneCodePoint` | include/nstd/Unicode.hpp:98-118 | `length` and `fromString` read an encoded code point back, whatever follows |
| `Unicode.CutOff` | include/nstd/Unicode.hpp:104-106 | `fromString` of a code point that is cut off is 0 |
| `Unicode.RoundTrip` | include/nstd/Unicode.hpp:47-151 | Every sequence of code points, surrogates included, encodes to a valid string that walks back to the same sequence |

## Left out

- LockFreeQueue.EveryRun: memory is sequentially consistent and tickets are unbounded naturals; the wrap of the 64-bit counters and weaker memory orders are not modelled.
- LockFreeQueue.LonePush: says when `push` returns false only with no other call in flight, because with others it may fail after a stale read; the same goes for `LockFreeQueue.LonePop`.
- ThreadPool.NoWorkerSleepsOnWork: is about a published job at the front, because for a published job further back it is false (`PublishedJobAsleep`); the workers are a fixed non-empty set and `Signal` is an atomic flag that stays up.
- PoolRoom.NoProducerSleepsOnRoom: is for calls of `run` that do not overlap, because for overlapping ones it is false (`PoolRoom.WakeUpMissed`).
- Starting and ending worker threads, the quit jobs, and the `Future` objects on top of the pool.
- Destructors of the containers, copy construction and assignment, blocks of items as allocation units, and iterators to removed items.
- `MultiMap::count`, which starts at any item of the key.
- Callbacks.Hub.Disconnect: requires a listener that was once connected to the emitter when the emitter knows the signal; otherwise the source goes past the end of a map.
- Callbacks.Hub.Emit: the object pointer and the arguments of a slot, and C++ member pointers; emitters, listeners, signals and slots are numbers in one hub, what a slot does is a finite script given beforehand, and the history is kept in a field that no decision depends on.
- Callbacks.Hub.Run: skips actions that would be misuse, and disconnections and destructions after which the tables would not match; what the source does from there on is undefined, because a live entry may lead to a destroyed listener.
- JsonText.RoundTrip: doubles go by their text, which the lexer keeps unconverted, integers by value, whatever their width; strings with a NUL are left out, because a NUL ends a text.
- Json.Parser.Parse: error messages and positions, and parsing into a result that is not null.
- `stripComments`, and loading and saving files.
- XmlText.RoundTrip: line and column of elements, and null variants.
- Xml.Parser.ParseElement: line and column of the element, and parsing into an element that is not empty.
- Xml.UnescapeString: the number scan of the C library is modelled for one common behaviour (saturation at 64 bits, then 32 bits); the capacity of a string is not rounded up.
- Xml.Parser.Parse: error messages and positions.
- Sha256s.Sha256.Finalize: the length in bits is taken modulo 2^64, as in the source; from 2^64 bits on this is not a hash of the standard any more.
- Unicode.Append: the UTF-16 branch; code points are naturals, and `Unicode::fromString` cuts its sum to 32 bits.
- HashMaps.HashMap.Swap: both maps use the same hash function.
- `List` apart from `sort`: its insertion and removal are those of the lists in the maps.
- ListSort.List.Sort: the comparison is a pure function of two values.
- Buffers.Buffer.Append: the NUL byte behind the contents, `attach`, assignment, `swap`, and arguments inside the buffer itself.
- ServerSend.Client.Writable: what the callbacks do, and the rest of the event loop: timers, listeners, connecting, name resolution, closing.
- Weaker copies and wrappers: `Array`, `PoolList`, `PoolMap`, `HashSet`, `RefCount`, `Variant` storage, `String` beyond what `Xml.Storage` shows; and everything that wraps the operating system.
