/**
 * query.cpp: the structure chosen by select_qs behind one insert/count
 * interface, and run_ops driving it over the token stream.
 *
 * select_qs instantiates one of five structures: std::set (type 1),
 * std::unordered_set (type 2), the unbalanced tree pfp::binary_tree (type 3),
 * pfp::vs (type 4) and pfp::bv constructed with the limit (every other type).
 * The two standard containers are modelled by a mathematical set and the tree
 * by Pfp.BinaryTree. The code of pfp::vs and pfp::bv is not part of this
 * model: each is represented by the sequence of values inserted into it and
 * its behaviour, supplied as a parameter. Nothing is assumed about whether it
 * answers correctly, which is what validation checks, but its count is taken
 * to change nothing and to depend only on the values inserted.
 */
module Query {
  import opened Operations
  import Pfp

  /** uint64_t, the type of select_qs's `limit`. */
  type Limit = x: int | 0 <= x < 0x1_0000_0000_0000_0000

  /** The literal 10e6 that bounds the automatic choice of the bit vector. */
  const BitVectorThreshold: int := 10_000_000

  /** The structure select_qs instantiates. */
  datatype Kind = OrderedSet | HashSet | UnbalancedTree | SortedVector | BitVector(limit: Limit)
  {
    /** A structure whose code is not part of this model. */
    predicate Unseen()
    {
      SortedVector? || BitVector?
    }
  }

  /**
   * The automatic choice of select_qs: type 0 asks for it, every other type
   * is kept as given.
   */
  function AutoType(typeNumber: int, limit: Limit, separateQueries: bool): (t: int)
    ensures t != 0
    ensures typeNumber != 0 ==> t == typeNumber
    ensures typeNumber == 0 ==> t in {4, 5, 6}
    ensures typeNumber == 0 ==> (t == 5 <==> 0 < limit < BitVectorThreshold)
    ensures typeNumber == 0 ==> (t == 4 <==> !(0 < limit < BitVectorThreshold) && separateQueries)
  {
    if typeNumber == 0 then
      if limit > 0 && limit < BitVectorThreshold then 5
      else if separateQueries then 4
      else 6
    else typeNumber
  }

  /**
   * The dispatch of select_qs by type number: 1 to 4 name a structure, and
   * every other number, 5 and 6 included, gets the bit vector built with
   * `limit`.
   */
  function KindOf(typeNumber: int, limit: Limit): (k: Kind)
    ensures typeNumber == 1 <==> k == OrderedSet
    ensures typeNumber == 2 <==> k == HashSet
    ensures typeNumber == 3 <==> k == UnbalancedTree
    ensures typeNumber == 4 <==> k == SortedVector
    ensures typeNumber !in {1, 2, 3, 4} <==> k == BitVector(limit)
  {
    if typeNumber == 1 then OrderedSet
    else if typeNumber == 2 then HashSet
    else if typeNumber == 3 then UnbalancedTree
    else if typeNumber == 4 then SortedVector
    else BitVector(limit)
  }

  /** The structure select_qs instantiates for its arguments. */
  function SelectKind(typeNumber: int, limit: Limit, separateQueries: bool): (k: Kind)
    ensures typeNumber == 0 ==> k.Unseen()
    ensures typeNumber != 0 ==> k == KindOf(typeNumber, limit)
    ensures k.BitVector? ==> k.limit == limit
  {
    KindOf(AutoType(typeNumber, limit, separateQueries), limit)
  }

  /**
   * The automatic choice never picks a structure whose code is part of this
   * model: a small positive limit, and also every other case where insertions
   * and queries are not separated, gets the bit vector.
   */
  lemma AutoSelection(limit: Limit, separateQueries: bool)
    ensures SelectKind(0, limit, separateQueries) ==
      if 0 < limit < BitVectorThreshold || !separateQueries then BitVector(limit) else SortedVector
  {
  }

  /** An explicit type is honoured whatever the limit and the separation hint. */
  lemma ExplicitTypeHonoured(typeNumber: int, limit: Limit, separateQueries: bool)
    requires typeNumber != 0
    ensures SelectKind(typeNumber, limit, separateQueries) == KindOf(typeNumber, limit)
    ensures typeNumber in {1, 2, 3, 4} ==> SelectKind(typeNumber, limit, separateQueries) == SelectKind(typeNumber, 0, false)
  {
  }

  /** What count reports for a structure of the given kind. */
  function AnswersOf(kind: Kind, unseen: Behaviour): Behaviour
  {
    if kind.Unseen() then unseen else Membership
  }

  /**
   * One structure under test, `qs` of run_ops. `History` is what was inserted
   * into it, in order.
   */
  class SetStructure {
    const kind: Kind
    const tree: Pfp.BinaryTree?
    var library: set<int>
    const unseen: Behaviour
    var unseenLog: seq<int>

    ghost var History: seq<int>
    ghost var Repr: set<object>

    ghost predicate Valid()
      reads this, Repr
    {
      this in Repr &&
      (kind.UnbalancedTree? <==> tree != null) &&
      (tree != null ==>
        tree in Repr && tree.Repr <= Repr && this !in tree.Repr && tree.Valid() &&
        tree.Contents() == Inserted(History)) &&
      ((kind.OrderedSet? || kind.HashSet?) ==> library == Inserted(History)) &&
      (kind.Unseen() ==> unseenLog == History)
    }

    function Answers(): Behaviour
    {
      AnswersOf(kind, unseen)
    }

    /** A new, empty structure of the given kind. */
    constructor (kind: Kind, unseen: Behaviour)
      ensures Valid() && fresh(Repr)
      ensures this.kind == kind && this.unseen == unseen && History == []
    {
      this.kind := kind;
      this.unseen := unseen;
      library := {};
      unseenLog := [];
      History := [];
      if kind.UnbalancedTree? {
        var t := new Pfp.BinaryTree();
        tree := t;
        Repr := {this} + t.Repr;
      } else {
        tree := null;
        Repr := {this};
      }
    }

    method Insert(value: int)
      requires Valid()
      modifies Repr
      ensures Valid() && fresh(Repr - old(Repr))
      ensures History == old(History) + [value]
    {
      InsertedAppend(History, value);
      match kind {
        case UnbalancedTree =>
          tree.Insert(value);
          Repr := Repr + tree.Repr;
        case OrderedSet =>
          library := library + {value};
        case HashSet =>
          library := library + {value};
        case SortedVector =>
          unseenLog := unseenLog + [value];
        case BitVector(_) =>
          unseenLog := unseenLog + [value];
      }
      History := History + [value];
    }

    /** count(value): 1 when the structure reports `value` present, else 0. */
    function Count(value: int): (n: int)
      reads this, Repr
      requires Valid()
      ensures n == if Answers()(History, value) then 1 else 0
    {
      match kind
      case UnbalancedTree => tree.Count(value)
      case OrderedSet => if value in library then 1 else 0
      case HashSet => if value in library then 1 else 0
      case SortedVector => if unseen(unseenLog, value) then 1 else 0
      case BitVector(_) => if unseen(unseenLog, value) then 1 else 0
    }
  }

  function ModeOf(insert: bool): Mode
  {
    if insert then Inserting else Querying
  }

  /** The outcome of a run after `lines` were already printed. */
  function After(lines: seq<bool>, o: Outcome): Outcome
  {
    Outcome(lines + o.lines, o.aborted)
  }

  /**
   * Reading token i, after `lines` were printed: a negative token toggles the
   * mode, a value in insert mode extends the history, and a value in query
   * mode either ends a validated run or prints its answer.
   */
  lemma Step(tokens: seq<int>, i: nat, mode: Mode, history: seq<int>, validate: bool, answer: Behaviour, lines: seq<bool>)
    requires i < |tokens|
    ensures var here, x := After(lines, RunFrom(tokens[i..], mode, history, validate, answer)), tokens[i];
      (x < 0 ==> here == After(lines, RunFrom(tokens[i + 1..], Toggle(mode), history, validate, answer))) &&
      (x >= 0 && mode == Inserting ==>
        here == After(lines, RunFrom(tokens[i + 1..], Inserting, history + [x], validate, answer))) &&
      (x >= 0 && mode == Querying && validate && answer(history, x) != (x in Inserted(history)) ==>
        here == Outcome(lines, true)) &&
      (x >= 0 && mode == Querying && !(validate && answer(history, x) != (x in Inserted(history))) ==>
        here == After(lines + [answer(history, x)], RunFrom(tokens[i + 1..], Querying, history, validate, answer)))
  {
    assert tokens[i..][1..] == tokens[i + 1..];
    assert lines + [] == lines;
    var later := RunFrom(tokens[i + 1..], mode, history, validate, answer);
    assert lines + ([answer(history, tokens[i])] + later.lines) == lines + [answer(history, tokens[i])] + later.lines;
  }

  /**
   * Reading token i keeps the runner's mode and inserted values in step with
   * the positional reference.
   */
  lemma PositionStep(tokens: seq<int>, i: nat, insert: bool, history: seq<int>)
    requires i < |tokens| && ModeOf(insert) == ModeAt(tokens, i) && Inserted(history) == InsertedBefore(tokens, i)
    ensures var x := tokens[i];
      (x < 0 ==> ModeOf(!insert) == ModeAt(tokens, i + 1) && Inserted(history) == InsertedBefore(tokens, i + 1)) &&
      (x >= 0 && insert ==> ModeOf(insert) == ModeAt(tokens, i + 1) && Inserted(history + [x]) == InsertedBefore(tokens, i + 1)) &&
      (x >= 0 && !insert ==> ModeOf(insert) == ModeAt(tokens, i + 1) && Inserted(history) == InsertedBefore(tokens, i + 1))
  {
    ModeStep(tokens, i);
    InsertedStep(tokens, i);
    InsertedAppend(history, tokens[i]);
  }

  /**
   * run_ops: reads the tokens in order, toggling the mode on a negative
   * token, inserting in insert mode and printing count in query mode; with
   * validation on, every insertion is mirrored into the reference set `us`
   * and the first query whose answer disagrees with it ends the run.
   */
  method RunOps(qs: SetStructure, tokens: seq<int>, validate: bool) returns (lines: seq<bool>, aborted: bool)
    requires qs.Valid() && qs.History == []
    modifies qs.Repr
    ensures qs.Valid()
    ensures Outcome(lines, aborted) == Run(tokens, validate, qs.Answers())
    ensures !aborted ==> Inserted(qs.History) == InsertedBefore(tokens, |tokens|)
  {
    var us: set<int> := {};
    var insert := true;
    var i := 0;
    lines, aborted := [], false;
    ghost var answer := qs.Answers();
    assert tokens[0..] == tokens;
    while i < |tokens|
      invariant 0 <= i <= |tokens|
      invariant qs.Valid() && fresh(qs.Repr - old(qs.Repr)) && qs.Answers() == answer
      invariant us == if validate then Inserted(qs.History) else {}
      invariant ModeOf(insert) == ModeAt(tokens, i) && Inserted(qs.History) == InsertedBefore(tokens, i)
      invariant After(lines, RunFrom(tokens[i..], ModeOf(insert), qs.History, validate, answer)) ==
        Run(tokens, validate, answer)
    {
      var val := tokens[i];
      Step(tokens, i, ModeOf(insert), qs.History, validate, answer, lines);
      PositionStep(tokens, i, insert, qs.History);
      InsertedAppend(qs.History, val);
      i := i + 1;
      if val >= 0 {
        if insert {
          qs.Insert(val);
          if validate {
            us := us + {val};
          }
        } else {
          var res := qs.Count(val) != 0;
          if validate && res != (val in us) {
            aborted := true;
            return;
          }
          lines := lines + [res];
        }
      } else {
        insert := !insert;
      }
    }
    assert tokens[i..] == [];
  }

  /**
   * select_qs: chooses the structure, creates it empty and runs the tokens on
   * it. `sortedVector` and `bitVector` are the behaviours of pfp::vs and of
   * pfp::bv constructed with a given limit.
   */
  method SelectQs(typeNumber: int, limit: Limit, separateQueries: bool, tokens: seq<int>, validate: bool,
                  sortedVector: Behaviour, bitVector: Limit -> Behaviour)
    returns (lines: seq<bool>, aborted: bool)
    ensures var kind := SelectKind(typeNumber, limit, separateQueries);
      Outcome(lines, aborted) ==
        Run(tokens, validate, AnswersOf(kind, if kind.BitVector? then bitVector(limit) else sortedVector))
    ensures !SelectKind(typeNumber, limit, separateQueries).Unseen() ==> !aborted && lines == Expected(tokens)
  {
    var kind := SelectKind(typeNumber, limit, separateQueries);
    var unseen := if kind.BitVector? then bitVector(limit) else sortedVector;
    var qs := new SetStructure(kind, unseen);
    lines, aborted := RunOps(qs, tokens, validate);
    if !kind.Unseen() {
      RunMatchesExpected(tokens, validate, Membership);
    }
  }
}
