/**
 * The meaning of run_ops in query.cpp, as functions over a finite sequence of
 * already-parsed tokens.
 *
 * The structure under test is seen only through its answers: `answer(h, v)`
 * is what its count(v) reports after the values `h` were inserted into it,
 * in that order. This takes count to change nothing and to depend only on the
 * values inserted. It holds for std::set, std::unordered_set and
 * pfp::binary_tree, whose count is const; for pfp::vs and pfp::bv it is an
 * assumption. Under it the answers may be right or wrong; `Membership` is
 * the behaviour of a correct structure, and of the reference
 * std::unordered_set.
 *
 * `RunFrom` follows the loop of run_ops token by token. `Expected` is an
 * independent, positional reference: token i is a query exactly when it is
 * non-negative and an odd number of negative tokens precedes it, and its answer is whether its value
 * occurs as a non-negative token in insert mode before position i.
 */
module Operations {

  /** The runner's mode; run_ops keeps it in the flag `insert`. */
  datatype Mode = Inserting | Querying

  function Toggle(m: Mode): Mode
  {
    if m == Inserting then Querying else Inserting
  }

  /** count(v) of a structure after the insertion history h. */
  type Behaviour = (seq<int>, int) -> bool

  /** The lines printed (true for `1`, false for `0`) and whether validation ended the run. */
  datatype Outcome = Outcome(lines: seq<bool>, aborted: bool)

  /** The set of values in an insertion history. */
  function Inserted(h: seq<int>): set<int>
  {
    set x | x in h
  }

  /** The behaviour of a correct set implementation. */
  function Membership(h: seq<int>, v: int): bool
  {
    v in Inserted(h)
  }

  ghost predicate Correct(answer: Behaviour)
  {
    forall h, v :: answer(h, v) == (v in Inserted(h))
  }

  /**
   * The run from some point on: the remaining tokens, the current mode, what
   * was inserted so far, whether validation is on, and the behaviour of the
   * structure under test.
   */
  function RunFrom(tokens: seq<int>, mode: Mode, history: seq<int>, validate: bool, answer: Behaviour): (r: Outcome)
    ensures r.aborted ==> validate
    decreases |tokens|
  {
    if tokens == [] then Outcome([], false)
    else
      var x, rest := tokens[0], tokens[1..];
      if x < 0 then RunFrom(rest, Toggle(mode), history, validate, answer)
      else if mode == Inserting then RunFrom(rest, mode, history + [x], validate, answer)
      else
        var found := answer(history, x);
        if validate && found != (x in Inserted(history)) then Outcome([], true)
        else
          var o := RunFrom(rest, mode, history, validate, answer);
          Outcome([found] + o.lines, o.aborted)
  }

  /** A whole run: it starts in insert mode with nothing inserted. */
  function Run(tokens: seq<int>, validate: bool, answer: Behaviour): (r: Outcome)
    ensures r.aborted ==> validate
  {
    RunFrom(tokens, Inserting, [], validate, answer)
  }

  /** Every token prints at most one line, with or without validation. */
  lemma {:induction false} AtMostOneLinePerToken(tokens: seq<int>, mode: Mode, history: seq<int>, validate: bool, answer: Behaviour)
    ensures |RunFrom(tokens, mode, history, validate, answer).lines| <= |tokens|
    decreases |tokens|
  {
    if tokens != [] {
      var x, rest := tokens[0], tokens[1..];
      if x < 0 {
        AtMostOneLinePerToken(rest, Toggle(mode), history, validate, answer);
      } else if mode == Inserting {
        AtMostOneLinePerToken(rest, mode, history + [x], validate, answer);
      } else {
        AtMostOneLinePerToken(rest, mode, history, validate, answer);
      }
    }
  }

  // ---------------------------------------------------------------------
  // The positional reference

  function NegativeCount(s: seq<int>): nat
  {
    if s == [] then 0
    else NegativeCount(s[..|s| - 1]) + if s[|s| - 1] < 0 then 1 else 0
  }

  /** The mode in force when token i is read. */
  function ModeAt(tokens: seq<int>, i: nat): Mode
    requires i <= |tokens|
  {
    if NegativeCount(tokens[..i]) % 2 == 0 then Inserting else Querying
  }

  predicate IsQuery(tokens: seq<int>, i: nat)
    requires i < |tokens|
  {
    tokens[i] >= 0 && ModeAt(tokens, i) == Querying
  }

  /** The values inserted before position i. */
  function InsertedBefore(tokens: seq<int>, i: nat): set<int>
    requires i <= |tokens|
  {
    set j | 0 <= j < i && tokens[j] >= 0 && ModeAt(tokens, j) == Inserting :: tokens[j]
  }

  /** The expected answers to the queries at positions i and later, in order. */
  function ExpectedFrom(tokens: seq<int>, i: nat): seq<bool>
    requires i <= |tokens|
    decreases |tokens| - i
  {
    if i == |tokens| then []
    else
      (if IsQuery(tokens, i) then [tokens[i] in InsertedBefore(tokens, i)] else []) +
      ExpectedFrom(tokens, i + 1)
  }

  function Expected(tokens: seq<int>): seq<bool>
  {
    ExpectedFrom(tokens, 0)
  }

  // ---------------------------------------------------------------------
  // Lemmas

  lemma InsertedAppend(h: seq<int>, v: int)
    ensures Inserted(h + [v]) == Inserted(h) + {v}
  {
    assert forall x :: x in h + [v] <==> x in h || x == v;
  }

  /** Reading token i toggles the mode exactly when the token is negative. */
  lemma ModeStep(tokens: seq<int>, i: nat)
    requires i < |tokens|
    ensures ModeAt(tokens, i + 1) == if tokens[i] < 0 then Toggle(ModeAt(tokens, i)) else ModeAt(tokens, i)
  {
    assert tokens[..i + 1][..i] == tokens[..i];
  }

  /** Token i adds to the inserted values exactly when it is inserted. */
  lemma InsertedStep(tokens: seq<int>, i: nat)
    requires i < |tokens|
    ensures InsertedBefore(tokens, i + 1) ==
      InsertedBefore(tokens, i) + if tokens[i] >= 0 && ModeAt(tokens, i) == Inserting then {tokens[i]} else {}
  {
  }

  /**
   * With a correct structure under test the run prints, one line per query
   * and in input order, whether the queried value was inserted earlier; it
   * never aborts, whether validation is on or off.
   */
  lemma {:induction false} RunFromMatchesExpected(tokens: seq<int>, i: nat, history: seq<int>, validate: bool, answer: Behaviour)
    requires Correct(answer)
    requires i <= |tokens| && Inserted(history) == InsertedBefore(tokens, i)
    ensures RunFrom(tokens[i..], ModeAt(tokens, i), history, validate, answer) == Outcome(ExpectedFrom(tokens, i), false)
    decreases |tokens| - i
  {
    if i < |tokens| {
      assert tokens[i..][1..] == tokens[i + 1..];
      ModeStep(tokens, i);
      InsertedStep(tokens, i);
      if tokens[i] >= 0 && ModeAt(tokens, i) == Inserting {
        InsertedAppend(history, tokens[i]);
        RunFromMatchesExpected(tokens, i + 1, history + [tokens[i]], validate, answer);
      } else {
        RunFromMatchesExpected(tokens, i + 1, history, validate, answer);
      }
    }
  }

  lemma RunMatchesExpected(tokens: seq<int>, validate: bool, answer: Behaviour)
    requires Correct(answer)
    ensures Run(tokens, validate, answer) == Outcome(Expected(tokens), false)
  {
    assert tokens[0..] == tokens;
    assert InsertedBefore(tokens, 0) == {};
    RunFromMatchesExpected(tokens, 0, [], validate, answer);
  }

  /**
   * With validation on, the run prints the lines of the unvalidated run up
   * to, and not including, the first line that disagrees with the reference,
   * and aborts exactly when there is such a line.
   */
  lemma {:induction false} ValidationStopsAtFirstMismatch(tokens: seq<int>, mode: Mode, history: seq<int>, answer: Behaviour)
    ensures
      var v := RunFrom(tokens, mode, history, true, answer);
      var u := RunFrom(tokens, mode, history, false, answer);
      var e := RunFrom(tokens, mode, history, false, Membership);
      !u.aborted && !e.aborted && |u.lines| == |e.lines| &&
      |v.lines| <= |u.lines| &&
      v.lines == u.lines[..|v.lines|] == e.lines[..|v.lines|] &&
      (v.aborted <==> u.lines != e.lines) &&
      (v.aborted ==> u.lines[|v.lines|] != e.lines[|v.lines|]) &&
      (!v.aborted ==> v.lines == u.lines)
    decreases |tokens|
  {
    if tokens != [] {
      var x, rest := tokens[0], tokens[1..];
      if x < 0 {
        ValidationStopsAtFirstMismatch(rest, Toggle(mode), history, answer);
      } else if mode == Inserting {
        ValidationStopsAtFirstMismatch(rest, mode, history + [x], answer);
      } else {
        ValidationStopsAtFirstMismatch(rest, mode, history, answer);
        var u := RunFrom(rest, mode, history, false, answer);
        var e := RunFrom(rest, mode, history, false, Membership);
        if answer(history, x) == Membership(history, x) {
          var v := RunFrom(rest, mode, history, true, answer);
          assert ([answer(history, x)] + v.lines) == ([answer(history, x)] + u.lines)[..1 + |v.lines|];
          assert ([answer(history, x)] + v.lines) == ([Membership(history, x)] + e.lines)[..1 + |v.lines|];
          assert ([answer(history, x)] + u.lines)[1..] == u.lines;
          assert ([Membership(history, x)] + e.lines)[1..] == e.lines;
        } else {
          assert ([answer(history, x)] + u.lines)[0] != ([Membership(history, x)] + e.lines)[0];
        }
      }
    }
  }

  /**
   * Queries only: one line per non-negative token read in query mode, whatever
   * the structure under test answers, when validation is off.
   */
  lemma OneLinePerQuery(tokens: seq<int>, answer: Behaviour)
    ensures !Run(tokens, false, answer).aborted
    ensures |Run(tokens, false, answer).lines| == |Expected(tokens)|
  {
    ValidationStopsAtFirstMismatch(tokens, Inserting, [], answer);
    RunMatchesExpected(tokens, false, Membership);
  }

  /**
   * The run seen from its first token: the validated output is a prefix of
   * the expected answers, and the run aborts exactly when some unvalidated
   * line is wrong, at the first such line.
   */
  lemma ValidatedRun(tokens: seq<int>, answer: Behaviour)
    ensures
      var v := Run(tokens, true, answer);
      var u := Run(tokens, false, answer);
      var e := Expected(tokens);
      |v.lines| <= |u.lines| == |e| &&
      v.lines == u.lines[..|v.lines|] == e[..|v.lines|] &&
      (v.aborted <==> u.lines != e) &&
      (v.aborted ==> u.lines[|v.lines|] != e[|v.lines|]) &&
      (!v.aborted ==> v.lines == u.lines == e)
  {
    ValidationStopsAtFirstMismatch(tokens, Inserting, [], answer);
    RunMatchesExpected(tokens, false, Membership);
  }

  /** A negative token is never data: it only flips the mode. */
  lemma NegativeToggles(x: int, rest: seq<int>, mode: Mode, history: seq<int>, validate: bool, answer: Behaviour)
    requires x < 0
    ensures RunFrom([x] + rest, mode, history, validate, answer) == RunFrom(rest, Toggle(mode), history, validate, answer)
  {
    assert ([x] + rest)[1..] == rest;
  }

  /** Two negative tokens in a row return to the mode in force before them. */
  lemma DoubleToggle(a: int, b: int, rest: seq<int>, mode: Mode, history: seq<int>, validate: bool, answer: Behaviour)
    requires a < 0 && b < 0
    ensures RunFrom([a, b] + rest, mode, history, validate, answer) == RunFrom(rest, mode, history, validate, answer)
  {
    assert ([a, b] + rest)[1..] == [b] + rest;
    NegativeToggles(b, rest, Toggle(mode), history, validate, answer);
  }

  /**
   * The run starts in insert mode: a stream without negative tokens inserts
   * every token and prints nothing.
   */
  lemma {:induction false} NoToggleNoOutput(tokens: seq<int>, history: seq<int>, validate: bool, answer: Behaviour)
    requires forall i :: 0 <= i < |tokens| ==> tokens[i] >= 0
    ensures RunFrom(tokens, Inserting, history, validate, answer) == Outcome([], false)
    decreases |tokens|
  {
    if tokens != [] {
      NoToggleNoOutput(tokens[1..], history + [tokens[0]], validate, answer);
    }
  }

  /** `-1 -1 5` read in query mode toggles twice and then queries 5. */
  lemma TwoTogglesThenQuery(history: seq<int>, answer: Behaviour)
    ensures RunFrom([-1, -1, 5], Querying, history, false, answer) == Outcome([answer(history, 5)], false)
  {
    DoubleToggle(-1, -1, [5], Querying, history, false, answer);
  }

  /** `5 -1 5` inserts 5 and then finds it. */
  lemma InsertThenFind()
    ensures Run([5, -1, 5], false, Membership) == Outcome([true], false)
  {
    RunMatchesExpected([5, -1, 5], false, Membership);
  }

  /** In `-1 5 -1 5` the first 5 is a query and the second an insertion. */
  lemma QueryThenInsert()
    ensures Run([-1, 5, -1, 5], false, Membership) == Outcome([false], false)
  {
    RunMatchesExpected([-1, 5, -1, 5], false, Membership);
  }

  /** A non-negative token read in insert mode is inserted and prints nothing. */
  lemma InsertToken(x: int, rest: seq<int>, history: seq<int>, validate: bool, answer: Behaviour)
    requires x >= 0
    ensures RunFrom([x] + rest, Inserting, history, validate, answer) == RunFrom(rest, Inserting, history + [x], validate, answer)
  {
    assert ([x] + rest)[1..] == rest;
  }

  /** Without validation, a non-negative token read in query mode prints exactly one line. */
  lemma QueryToken(x: int, rest: seq<int>, history: seq<int>, answer: Behaviour)
    requires x >= 0
    ensures var o := RunFrom(rest, Querying, history, false, answer);
      RunFrom([x] + rest, Querying, history, false, answer) == Outcome([answer(history, x)] + o.lines, o.aborted)
  {
    assert ([x] + rest)[1..] == rest;
  }

  /**
   * The stream `1 2 3 -1 2 4 -1 -1 5` inserts 1, 2 and 3, queries 2 and 4,
   * toggles twice and so queries 5 as well: it prints `1`, `0` and `0`.
   */
  lemma EndToEnd(tokens: seq<int>)
    requires tokens == [1, 2, 3, -1, 2, 4, -1, -1, 5]
    ensures Run(tokens, false, Membership) == Outcome([true, false, false], false)
  {
    EndToEndInserts(tokens);
    EndToEndQueries(tokens[4..], [1, 2, 3]);
  }

  /** The first half of `EndToEnd`: `1 2 3 -1` inserts 1, 2 and 3 and enters query mode. */
  lemma EndToEndInserts(t: seq<int>)
    requires |t| >= 4 && t[0] == 1 && t[1] == 2 && t[2] == 3 && t[3] == -1
    ensures RunFrom(t, Inserting, [], false, Membership) == RunFrom(t[4..], Querying, [1, 2, 3], false, Membership)
  {
    assert t == [t[0]] + t[1..] && t[1..] == [t[1]] + t[2..] && t[2..] == [t[2]] + t[3..];
    assert t[3..] == [t[3]] + t[4..];
    InsertToken(1, t[1..], [], false, Membership);
    InsertToken(2, t[2..], [1], false, Membership);
    InsertToken(3, t[3..], [1, 2], false, Membership);
    assert [] + [1] == [1] && [1] + [2] == [1, 2] && [1, 2] + [3] == [1, 2, 3];
    NegativeToggles(-1, t[4..], Inserting, [1, 2, 3], false, Membership);
  }

  /** The second half of `EndToEnd`: `2 4 -1 -1 5` in query mode after inserting 1, 2 and 3. */
  lemma EndToEndQueries(t: seq<int>, h: seq<int>)
    requires |t| == 5 && t[0] == 2 && t[1] == 4 && t[2] == -1 && t[3] == -1 && t[4] == 5 && h == [1, 2, 3]
    ensures RunFrom(t, Querying, h, false, Membership) == Outcome([true, false, false], false)
  {
    assert Membership(h, 2) && !Membership(h, 4) && !Membership(h, 5);
    assert t == [t[0]] + t[1..] && t[1..] == [t[1]] + t[2..] && t[2..] == [t[2], t[3]] + t[4..];
    assert t[4..] == [t[4]] + [];
    QueryToken(5, [], h, Membership);
    DoubleToggle(-1, -1, t[4..], Querying, h, false, Membership);
    QueryToken(4, t[2..], h, Membership);
    QueryToken(2, t[1..], h, Membership);
    assert [true] + ([false] + [false]) == [true, false, false];
  }
}
