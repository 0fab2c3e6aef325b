/** The Brainfuck jump table: for every bracket of the program, the index
    of its partner, found once before the program runs. A bracket's partner
    is defined here by nesting depth, and the stack-based construction of
    `__calculate_jump_table` is proved to find exactly those partners. */
module BrainfuckJumpTable {
  import opened Outcomes

  /** How a command changes the nesting depth. */
  function Delta(c: char): int
  {
    if c == '[' then 1 else if c == ']' then -1 else 0
  }

  /** Nesting depth before position `k`: opening minus closing brackets in `code[..k]`. */
  function Depth(code: string, k: nat): int
    requires k <= |code|
  {
    if k == 0 then 0 else Depth(code, k - 1) + Delta(code[k - 1])
  }

  /** No prefix of the program closes more brackets than it opens. */
  predicate NeverNegative(code: string)
  {
    forall k :: 0 <= k <= |code| ==> Depth(code, k) >= 0
  }

  /** `]` at `j` closes the `[` at `i`: the depth never falls back to the
      level outside `i` before `j`, and is one above it just before `j`. */
  predicate Matches(code: string, i: int, j: int)
  {
    && 0 <= i < j < |code|
    && code[i] == '[' && code[j] == ']'
    && Depth(code, j) == Depth(code, i) + 1
    && forall k :: i < k <= j ==> Depth(code, k) > Depth(code, i)
  }

  /** The first `]` that closes more than was opened: where popping from
      the empty stack fails. */
  predicate FirstUnmatchedClose(code: string, q: int)
  {
    && 0 <= q < |code| && code[q] == ']' && Depth(code, q) == 0
    && forall k :: 0 <= k <= q ==> Depth(code, k) >= 0
  }

  /** What the table holds: every `]` its matching `[`; every `[` its
      matching `]`, or `None` if it has none; every other position `None`. */
  ghost predicate IsJumpTable(code: string, jt: seq<Option<nat>>)
  {
    && |jt| == |code|
    && (forall j :: 0 <= j < |code| && code[j] == ']' ==> jt[j].Some? && Matches(code, jt[j].value, j))
    && (forall i :: 0 <= i < |code| && code[i] == '[' ==>
          if jt[i].Some? then Matches(code, i, jt[i].value) else forall j :: !Matches(code, i, j))
    && (forall k :: 0 <= k < |code| && code[k] != '[' && code[k] != ']' ==> jt[k].None?)
  }

  /** A `[` has at most one matching `]`. */
  lemma CloseIsUnique(code: string, i: int, j1: int, j2: int)
    requires Matches(code, i, j1) && Matches(code, i, j2)
    ensures j1 == j2
  {
    DepthAfterClose(code, i, j1);
    DepthAfterClose(code, i, j2);
  }

  /** Right after the `]` that closes it, the depth is back at the level
      before the `[`. */
  lemma DepthAfterClose(code: string, i: int, j: int)
    requires Matches(code, i, j)
    ensures Depth(code, j + 1) == Depth(code, i)
  {
  }

  /** A `]` has at most one matching `[`. */
  lemma OpenIsUnique(code: string, i1: int, i2: int, j: int)
    requires Matches(code, i1, j) && Matches(code, i2, j)
    ensures i1 == i2
  {
  }

  /** Where the table points, the target points back. */
  lemma JumpTargetPointsBack(code: string, jt: seq<Option<nat>>, i: int)
    requires IsJumpTable(code, jt)
    requires 0 <= i < |jt| && jt[i].Some?
    ensures jt[i].value < |jt| && jt[jt[i].value] == Some(i)
  {
    var j := jt[i].value;
    if code[i] == '[' {
      assert Matches(code, i, j);
      OpenIsUnique(code, i, jt[j].value, j);
    } else {
      assert code[i] == ']';
      assert Matches(code, j, i);
      assert jt[j].Some?;
      CloseIsUnique(code, j, jt[j].value, i);
    }
  }

  /** The table is symmetric: `i` points to `j` exactly when `j` points to `i`. */
  lemma JumpTableSymmetric(code: string, jt: seq<Option<nat>>, i: int, j: int)
    requires IsJumpTable(code, jt)
    requires 0 <= i < |jt| && 0 <= j < |jt|
    ensures jt[i] == Some(j) <==> jt[j] == Some(i)
  {
    if jt[i].Some? {
      JumpTargetPointsBack(code, jt, i);
    }
    if jt[j].Some? {
      JumpTargetPointsBack(code, jt, j);
    }
  }

  /** Only one table fits a program. */
  lemma JumpTableUnique(code: string, jt1: seq<Option<nat>>, jt2: seq<Option<nat>>)
    requires IsJumpTable(code, jt1) && IsJumpTable(code, jt2)
    ensures jt1 == jt2
  {
    forall k | 0 <= k < |code|
      ensures jt1[k] == jt2[k]
    {
      if code[k] == ']' {
        OpenIsUnique(code, jt1[k].value, jt2[k].value, k);
      } else if code[k] == '[' && jt1[k].Some? && jt2[k].Some? {
        CloseIsUnique(code, k, jt1[k].value, jt2[k].value);
      }
    }
  }

  /** Scanning right from a `[`: the first position where the depth falls
      back to its level closes it. */
  lemma {:induction false} ScanForClose(code: string, i: nat, p: nat, k: nat)
    requires i < p < k <= |code| && code[i] == '['
    requires forall q :: i < q <= p ==> Depth(code, q) > Depth(code, i)
    requires Depth(code, k) <= Depth(code, i)
    ensures exists j :: Matches(code, i, j)
    decreases k - p
  {
    if Depth(code, p + 1) <= Depth(code, i) {
      assert Matches(code, i, p);
    } else {
      ScanForClose(code, i, p + 1, k);
    }
  }

  /** In a balanced program, one that never closes more than it opened
      and ends at depth 0, every `[` has a matching `]`. */
  lemma BalancedHasMatches(code: string, i: nat)
    requires NeverNegative(code) && Depth(code, |code|) == 0
    requires i < |code| && code[i] == '['
    ensures exists j :: Matches(code, i, j)
  {
    assert Depth(code, i + 1) == Depth(code, i) + 1;
    ScanForClose(code, i, i + 1, |code|);
  }

  /** `__calculate_jump_table`: one pass with a stack of open brackets; a
      `]` pops its partner and the two are linked both ways. It fails at
      the first `]` met with an empty stack. */
  method CalculateJumpTable(code: string) returns (r: Result<seq<Option<nat>>, nat>)
    ensures r.Ok? <==> NeverNegative(code)
    ensures r.Ok? ==> IsJumpTable(code, r.value)
    ensures r.Err? ==> FirstUnmatchedClose(code, r.error)
  {
    var jt := new Option<nat>[|code|](_ => None);
    var stack: seq<nat> := [];
    ScanStart(code, jt[..]);
    for i := 0 to |code|
      invariant Scanned(code, jt[..], stack, i)
    {
      if code[i] == '[' {
        ScanOpen(code, jt[..], stack, i);
        stack := stack + [i];
      } else if code[i] == ']' {
        if stack == [] {
          ScanFail(code, jt[..], i);
          return Err(i);
        }
        ScanClose(code, jt[..], stack, i);
        var m := stack[|stack| - 1];
        ghost var table := jt[..];
        jt[i] := Some(m);
        jt[m] := Some(i);
        assert jt[..] == table[i := Some(m)][m := Some(i)];
        stack := stack[..|stack| - 1];
      } else {
        ScanOther(code, jt[..], stack, i);
      }
    }
    ScanDone(code, jt[..], stack);
    r := Ok(jt[..]);
  }

  /** Loop invariant of `CalculateJumpTable` after `code[..i]`: no prefix
      went below depth 0; the stack holds one open `[` per level of the
      current depth; every position before `i` holds its final entry,
      except a `[` still on the stack, which holds `None` like every
      position from `i` on. */
  ghost predicate Scanned(code: string, table: seq<Option<nat>>, stack: seq<nat>, i: nat)
  {
    && i <= |code| && |table| == |code|
    && (forall k :: 0 <= k <= i ==> Depth(code, k) >= 0)
    && |stack| == Depth(code, i)
    && (forall t :: 0 <= t < |stack| ==> OpenAt(code, stack, t, i) && table[stack[t]].None?)
    && (forall k :: i <= k < |code| ==> table[k].None?)
    && (forall k :: 0 <= k < i ==> Linked(code, table[k], stack, k, i))
  }

  /** The `t`-th entry of the stack is a `[` opened at depth `t` and still
      open after `code[..i]`. */
  predicate OpenAt(code: string, stack: seq<nat>, t: nat, i: nat)
    requires t < |stack| && i <= |code|
  {
    && stack[t] < i && code[stack[t]] == '[' && Depth(code, stack[t]) == t
    && forall k :: stack[t] < k <= i ==> Depth(code, k) > t
  }

  /** Entry `e` of position `k < i`: final, except `None` for a `[` still
      on the stack. */
  predicate Linked(code: string, e: Option<nat>, stack: seq<nat>, k: nat, i: nat)
    requires k < i <= |code|
  {
    if code[k] == ']' then e.Some? && Matches(code, e.value, k)
    else if code[k] == '[' then
      if k in stack then e.None? else e.Some? && e.value < i && Matches(code, k, e.value)
    else e.None?
  }

  lemma ScanStart(code: string, table: seq<Option<nat>>)
    requires |table| == |code| && forall k :: 0 <= k < |table| ==> table[k].None?
    ensures Scanned(code, table, [], 0)
  {
  }

  /** A `[` is pushed. */
  lemma ScanOpen(code: string, table: seq<Option<nat>>, stack: seq<nat>, i: nat)
    requires Scanned(code, table, stack, i) && i < |code| && code[i] == '['
    ensures Scanned(code, table, stack + [i], i + 1)
  {
    var next, pushed := i + 1, stack + [i];
    assert Depth(code, next) == Depth(code, i) + 1;
    forall t | 0 <= t < |pushed|
      ensures OpenAt(code, pushed, t, next)
    {
      if t < |stack| {
        assert OpenAt(code, stack, t, i);
      }
    }
    forall k | 0 <= k < next
      ensures Linked(code, table[k], pushed, k, next)
    {
      if k < i {
        assert Linked(code, table[k], stack, k, i);
      }
    }
  }

  /** A command other than a bracket changes nothing. */
  lemma ScanOther(code: string, table: seq<Option<nat>>, stack: seq<nat>, i: nat)
    requires Scanned(code, table, stack, i) && i < |code| && code[i] != '[' && code[i] != ']'
    ensures Scanned(code, table, stack, i + 1)
  {
    var next := i + 1;
    assert Depth(code, next) == Depth(code, i);
    forall t | 0 <= t < |stack|
      ensures OpenAt(code, stack, t, next)
    {
      assert OpenAt(code, stack, t, i);
    }
    forall k | 0 <= k < next
      ensures Linked(code, table[k], stack, k, next)
    {
      if k < i {
        assert Linked(code, table[k], stack, k, i);
      }
    }
  }

  /** A `]` pops the innermost open `[`, which it matches; both are linked. */
  lemma ScanClose(code: string, table: seq<Option<nat>>, stack: seq<nat>, i: nat)
    requires Scanned(code, table, stack, i) && i < |code| && code[i] == ']' && stack != []
    ensures var m := stack[|stack| - 1];
      Scanned(code, table[i := Some(m)][m := Some(i)], stack[..|stack| - 1], i + 1)
  {
    var next, m, popped := i + 1, stack[|stack| - 1], stack[..|stack| - 1];
    var after := table[i := Some(m)][m := Some(i)];
    assert Depth(code, next) == Depth(code, i) - 1;
    assert OpenAt(code, stack, |stack| - 1, i);
    assert Matches(code, m, i);
    forall t | 0 <= t < |popped|
      ensures OpenAt(code, popped, t, next) && popped[t] != m && after[popped[t]].None?
    {
      assert OpenAt(code, stack, t, i);
    }
    forall k | 0 <= k < next
      ensures Linked(code, after[k], popped, k, next)
    {
      if k < i && k != m {
        assert Linked(code, table[k], stack, k, i);
        if k in popped {
          var t :| 0 <= t < |popped| && popped[t] == k;
        }
      }
    }
  }

  /** A `]` met with an empty stack is the first unmatched one. */
  lemma ScanFail(code: string, table: seq<Option<nat>>, i: nat)
    requires Scanned(code, table, [], i) && i < |code| && code[i] == ']'
    ensures FirstUnmatchedClose(code, i) && !NeverNegative(code)
  {
    assert Depth(code, i + 1) == -1;
  }

  /** At the end, no prefix went negative and the table is complete; a `[`
      left on the stack has no match. */
  lemma ScanDone(code: string, table: seq<Option<nat>>, stack: seq<nat>)
    requires Scanned(code, table, stack, |code|)
    ensures NeverNegative(code) && IsJumpTable(code, table)
  {
    forall k | 0 <= k < |code| && code[k] == '[' && table[k].None?
      ensures forall j :: !Matches(code, k, j)
    {
      assert Linked(code, table[k], stack, k, |code|);
      var t :| 0 <= t < |stack| && stack[t] == k;
      assert OpenAt(code, stack, t, |code|);
      forall j | Matches(code, k, j)
        ensures false
      {
        DepthAfterClose(code, k, j);
      }
    }
    forall k | 0 <= k < |code| && code[k] != '[' 
      ensures Linked(code, table[k], stack, k, |code|)
    {
    }
  }
}
