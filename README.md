# Set-structure benchmark harness: tree and operation runner

This project models the core of a benchmarking harness for sets of
non-negative integers, and proves properties of the model.

The harness reads a stream of integers. A negative integer toggles between insert mode and query mode, and the run starts in insert mode. In insert mode a value is inserted into the structure under test. In query mode the structure's `count` of the value is printed as one line, `1` or `0`. With validation on, every insertion is mirrored into a reference `std::unordered_set`. The first query whose answer disagrees with the reference ends the run with an error. `select_qs` decides which structure is under test, from a type number, a value limit and a hint that insertions and queries are separated.

Files and modules:

- `search_tree.dfy`, module `SearchTree`: the abstract value of
  `pfp::binary_tree<int>`, an unbalanced binary search tree without
  rebalancing or deletion. `Insert` follows `node::insert` (an equal value
  stops, a greater one goes right, any other goes left, and a missing child
  becomes a new leaf). The lemmas cover the stored set, the ordering
  invariant, idempotence and the node count.
- `binary_tree.dfy`, module `Pfp`: the heap structure itself. `Node` has a
  constant `val` and mutable `left`/`right` pointers. `BinaryTree` has a
  `root` pointer. Each object carries a ghost `Model` (its `SearchTree.Tree`)
  and a ghost `Repr` (the nodes it owns). The `Insert` methods allocate along
  a recursive descent and state their new `Model` in terms of the old one.
  `Query` and `Count` are read-only functions.
- `operations.dfy`, module `Operations`: the meaning of `run_ops` as
  functions over a sequence of already-parsed tokens. The structure under
  test is seen through its *behaviour*: what its `count(v)` reports after a
  given insertion history. A correct structure (`Membership`) and a faulty
  one both fit, as long as `count` changes nothing and depends only on the
  values inserted. `Expected` is an independent
  positional reference. Token `i` is a query exactly when it is non-negative
  and an odd number of negative tokens precedes it. Its expected answer is whether its value was
  inserted, in insert mode, at an earlier position.
- `query.dfy`, module `Query`: `select_qs`'s decision rule (`AutoType`), its
  dispatch by type number (`KindOf`), the structure chosen behind one
  insert/count interface (`SetStructure`), the imperative `RunOps` loop and
  `SelectQs`. `std::set` and `std::unordered_set` are modelled by a
  mathematical set. The tree is `Pfp.BinaryTree`. The code of `pfp::vs` and
  `pfp::bv` is not part of this model. Each of them is represented by the
  values inserted into it and by a behaviour passed in as a parameter, so the
  model assumes nothing about whether it answers correctly. It does assume
  its `count` does not change it (see "Left out").

Two consequences of the code that are easy to misread:

- Type 0 with a limit outside `(0, 10000000)` (so also a limit of 0) and no separation hint becomes type 6. Type 6 is not one of the numbered branches, so it reaches the bit-vector branch, built with the given limit. A limit outside that range with the hint set gives the sorted vector. `AutoSelection` states both.
- `1 2 3 -1 2 4 -1 -1 5` prints `1`, `0`, `0`: the two toggles before `5` return to query mode, so `5` is queried too (`EndToEnd`).

## Model

| member | source | states |
|---|---|---|
| `SearchTree.Insert` | exercise0/template/include/binary_tree.hpp:226-251 | node::insert on the abstract tree: equal stops, greater goes right, anything else goes left, a missing child becomes a leaf; the result is never empty and keeps the root value |
| `SearchTree.InsertElements` | exercise0/template/include/binary_tree.hpp:226-251 | after an insertion the tree stores exactly its old values plus the inserted one |
| `SearchTree.InsertKeepsSearchTree` | exercise0/template/include/binary_tree.hpp:238-250 | insertion keeps the ordering invariant: left subtree strictly smaller, right subtree strictly larger |
| `SearchTree.InsertPresent` | exercise0/template/include/binary_tree.hpp:235-237 | inserting a value already present in a search tree returns the tree unchanged |
| `SearchTree.InsertIdempotent` | exercise0/template/include/binary_tree.hpp:226-251 | inserting a value twice has the same effect as inserting it once, on every tree |
| `SearchTree.InsertSize` | exercise0/template/include/binary_tree.hpp:239-249 | an insertion adds one node when the value is new and none when it is present |
| `SearchTree.SizeIsCardinality` | exercise0/template/include/binary_tree.hpp:120-122 | a search tree has exactly one node per distinct stored value |
| `SearchTree.SearchOneBranch` | exercise0/template/include/binary_tree.hpp:266-269 | in a search tree a larger value can only be in the right subtree, a smaller one only in the left |
| `Pfp.Node.constructor` | exercise0/template/include/binary_tree.hpp:200 | a new node is a leaf with the given value and no children |
| `Pfp.Node.Insert` | exercise0/template/include/binary_tree.hpp:226-251 | the subtree's new value is `SearchTree.Insert` of its old value; only fresh nodes are added, none when nothing changes; the structure stays a finite tree; `val` is a constant, so no existing node changes its value |
| `Pfp.Node.Query` | exercise0/template/include/binary_tree.hpp:259-270 | on a search tree, following one branch returns true iff the value is stored in the subtree |
| `Pfp.BinaryTree.constructor` | exercise0/template/include/binary_tree.hpp:61-70 | a new tree has a null root and stores nothing |
| `Pfp.BinaryTree.Insert` | exercise0/template/include/binary_tree.hpp:125-150 | contents become old contents plus the value; the ordering invariant is kept; a present value leaves tree and nodes unchanged; the node count grows by at most one |
| `Pfp.BinaryTree.Count` | exercise0/template/include/binary_tree.hpp:164-166 | returns 1 iff the value is stored, else 0; never anything but 0 or 1; 0 on a null root |
| `Operations.RunFrom` | exercise0/template/query.cpp:84-131 | the run_ops loop from some state on: negative tokens toggle, values in insert mode extend the history, values in query mode print the answer or end a validated run on a mismatch; only a validated run aborts |
| `Operations.Run` | exercise0/template/query.cpp:81-84 | the run starts in insert mode with nothing inserted; only a validated run aborts |
| `Operations.AtMostOneLinePerToken` | exercise0/template/query.cpp:86-131 | from any state, with or without validation, the run prints at most one line per token read |
| `Operations.RunFromMatchesExpected` | exercise0/template/query.cpp:84-131 | from any position, with a correct structure, the rest of the run prints exactly the expected answers of the remaining queries and does not abort |
| `Operations.RunMatchesExpected` | exercise0/template/query.cpp:92-120 | with a correct structure, each printed line answers whether the queried value was inserted earlier in the stream, one per query in input order, with validation on or off, and the run never aborts |
| `Operations.ValidationStopsAtFirstMismatch` | exercise0/template/query.cpp:106-119 | from any state, the validated output is the unvalidated output cut just before its first wrong line; it aborts iff such a line exists |
| `Operations.ValidatedRun` | exercise0/template/query.cpp:100-119 | for any structure, the validated output is a prefix of the expected answers, and the run aborts iff the unvalidated output is wrong somewhere, before printing the first wrong line |
| `Operations.OneLinePerQuery` | exercise0/template/query.cpp:92-120 | without validation, any structure gets exactly one output line per query and none per insertion, and the run never aborts |
| `Operations.ModeStep` | exercise0/template/query.cpp:122-131 | reading a token toggles the mode exactly when the token is negative |
| `Operations.InsertedStep` | exercise0/template/query.cpp:92-102 | a token adds to the inserted values exactly when it is non-negative and read in insert mode |
| `Operations.NegativeToggles` | exercise0/template/query.cpp:122-131 | a negative token is never inserted or queried; it only flips the mode |
| `Operations.DoubleToggle` | exercise0/template/query.cpp:122-131 | two negative tokens in a row return the run to the mode it was in |
| `Operations.TwoTogglesThenQuery` | exercise0/template/query.cpp:122-131 | `-1 -1 5` read in query mode queries 5 |
| `Operations.NoToggleNoOutput` | exercise0/template/query.cpp:84 | the run starts in insert mode: a stream with no negative token prints nothing and does not abort |
| `Operations.InsertThenFind` | exercise0/template/query.cpp:92-119 | `5 -1 5` inserts 5 and then reports it present |
| `Operations.QueryThenInsert` | exercise0/template/query.cpp:92-131 | in `-1 5 -1 5` the first 5 is queried (absent) and the second is inserted, not queried |
| `Operations.EndToEnd` | exercise0/template/query.cpp:84-131 | `1 2 3 -1 2 4 -1 -1 5` prints `1`, `0`, `0` |
| `Operations.EndToEndInserts` | exercise0/template/query.cpp:92-102 | `1 2 3 -1` at the start of a stream inserts 1, 2 and 3 and leaves the run in query mode |
| `Operations.EndToEndQueries` | exercise0/template/query.cpp:105-131 | `2 4 -1 -1 5` read in query mode after inserting 1, 2 and 3 prints `1`, `0`, `0` |
| `Operations.InsertToken` | exercise0/template/query.cpp:92-102 | a non-negative token read in insert mode extends the history and prints nothing |
| `Operations.QueryToken` | exercise0/template/query.cpp:105-120 | without validation, a non-negative token read in query mode prints the structure's answer as one line and the run goes on in query mode |
| `Operations.InsertedAppend` | exercise0/template/query.cpp:101 | adding a value to the history adds exactly that value to the reference set |
| `Query.AutoType` | exercise0/template/query.cpp:149-157 | the result is never 0 (type 0 always resolves to a structure); for type 0: 5 iff `0 < limit < 10000000`; otherwise 4 iff queries are separated; otherwise 6; any other type is kept |
| `Query.KindOf` | exercise0/template/query.cpp:159-181 | types 1 to 4 select std::set, std::unordered_set, the tree and the sorted vector; every other number gets the bit vector built with the limit |
| `Query.SelectKind` | exercise0/template/query.cpp:149-181 | the whole choice of select_qs: type 0 always gives the sorted vector or the bit vector, a non-zero type is dispatched as given, and a bit vector is built with the given limit |
| `Query.AutoSelection` | exercise0/template/query.cpp:149-181 | the automatic choice is the bit vector when `0 < limit < 10000000` or queries are not separated (a limit of 0 included); otherwise it is the sorted vector |
| `Query.ExplicitTypeHonoured` | exercise0/template/query.cpp:149-181 | a non-zero type is dispatched as given; types 1 to 4 do not depend on the limit or the hint |
| `Query.SetStructure.constructor` | exercise0/template/query.cpp:159-180 | the chosen structure starts empty with the given kind |
| `Query.SetStructure.Insert` | exercise0/template/query.cpp:94 | the insertion is dispatched to the structure of the chosen kind and appended to its history |
| `Query.SetStructure.Count` | exercise0/template/query.cpp:107-119 | count is 1 iff the structure's behaviour reports the value present after its history, else 0; for std::set, std::unordered_set and the tree that is membership |
| `Query.Step` | exercise0/template/query.cpp:86-131 | one loop iteration: a negative token toggles the mode, a value in insert mode extends the history, a value in query mode aborts a validated run on a wrong answer and otherwise prints the answer |
| `Query.PositionStep` | exercise0/template/query.cpp:92-131 | one loop iteration keeps the mode flag and the inserted values equal to the positional reference |
| `Query.RunOps` | exercise0/template/query.cpp:76-133 | the printed lines and the abort flag are those of `Operations.Run` for the structure's behaviour; the reference set equals the set of inserted values throughout (a loop invariant); without an abort the structure holds exactly the values inserted in insert mode |
| `Query.SelectQs` | exercise0/template/query.cpp:139-182 | runs the tokens on an empty structure of the selected kind; for std::set, std::unordered_set and the tree it never aborts and prints exactly the expected answers |

## Left out

- `main` and `help` (command-line parsing, choice of file or standard input, the help text) are not modelled. They are I/O glue; `SelectQs` takes their results as parameters.
- The input stream is modelled as a finite sequence of already-parsed integers that ends only when it is exhausted. Parse failures and the `in.good()` test are not modelled. Because of that test, a final integer with no whitespace after it is read and then discarded by the code; the model processes it.
- Debug mode (its messages and the "found"/"not found" lines) is not modelled. Only the non-debug output is modelled: one line per query.
- `Query.RunOps` and `Operations.RunFrom`: a validation mismatch is modelled as the `aborted` flag. The message written to standard error and the process exit status 1 are not modelled.
- `Query.RunOps`: with validation on, the code calls `count` twice for a query, once to validate and once to print. The model calls `Count` once. That is exact for `std::set`, `std::unordered_set` and `pfp::binary_tree`, whose `count` is `const`. For `pfp::vs` and `pfp::bv` it is an assumption.
- `Operations.ValidatedRun` and `Operations.ValidationStopsAtFirstMismatch` assume that the `count` of `pfp::vs` and `pfp::bv` changes no state and depends only on the values inserted, in order (their code is not part of this model). A structure whose `count` changed state could answer the validating call correctly and the printing call wrongly. A validated run would then print a wrong line without aborting, which these lemmas do not cover.
- `std::set` and `std::unordered_set` are library containers. They are modelled as a mathematical set, and so is the reference set `us`.
- The code of `pfp::vs` and `pfp::bv` is not part of this model. Their answers are a parameter (`sortedVector`, `bitVector(limit)`), and their `count` is taken as a yes/no answer printed as `1` or `0`. So their storage, their behaviour on values outside `[0, limit]`, and their costs are not modelled.
- Destructors, memory release, and the deleted copy and move operations have no counterpart. Dafny has garbage collection, and a value that cannot be copied needs no model.
- The template instantiation over `{structure} x {debug} x {validate}` is modelled as a runtime `Kind` and a `validate` flag. The element type `dtype` is fixed to `int`. Values and tokens are unbounded integers: the code does no arithmetic on them, so 32-bit width does not affect any branch.
- `10e6` is a double in the code. It is modelled as the integer 10000000; comparing a `uint64_t` with it gives the same result.
- `nums.py` is a random benchmark-data generator and is not modelled.
