/** The record `h_struct` writes, read as a list of lines: an opening per
    table, a member per field, a closing per table, nested as the tables are,
    with the tables opened in the same pre-order every `c_src` pass follows. */
module Nesting {
  import opened Names
  import opened Schema
  import opened Paths
  import opened Emit

  /** Writing `ls` and then `ms` is writing `ls + ms`. */
  lemma {:induction false} LinesAfterAppend(K: Snippets, out: string, A: Arena, ls: seq<Line>, ms: seq<Line>)
    requires forall k :: 0 <= k < |ls| ==> ls[k].t < |A|
    requires forall k :: 0 <= k < |ms| ==> ms[k].t < |A|
    ensures LinesAfter(K, out, A, ls + ms) == LinesAfter(K, LinesAfter(K, out, A, ls), A, ms)
    decreases |ms|
  {
    if ms == [] {
      assert ls + ms == ls;
    } else {
      var ws, m, pre := ls + ms, ms[|ms| - 1], ms[..|ms| - 1];
      assert ws[..|ws| - 1] == ls + pre;
      LinesAfterAppend(K, out, A, ls, pre);
      var o := LinesAfter(K, out, A, ls + pre);
      assert LinesAfter(K, out, A, ws) == LineAfter(K, o, A, m);
      var o' := LinesAfter(K, out, A, ls);
      assert LinesAfter(K, o', A, ms) == LineAfter(K, LinesAfter(K, o', A, pre), A, m);
    }
  }

  /** The members of table `t` are its member lines. */
  lemma {:induction false} MembersAreLines(K: Snippets, out: string, A: Arena, t: nat, fs: seq<Field>)
    requires t < |A|
    ensures MembersAfter(K, out, A[t].depth, fs) == LinesAfter(K, out, A, MemberLines(t, fs))
    decreases |fs|
  {
    if fs != [] {
      var ls := MemberLines(t, fs);
      assert ls[..|ls| - 1] == MemberLines(t, fs[..|fs| - 1]);
      MembersAreLines(K, out, A, t, fs[..|fs| - 1]);
    }
  }

  /** `h_struct(t)` writes exactly the lines of `StructLines(A, t)`: the
      opening of `t`, one member per field, the records of its children, the
      closing of `t`. */
  lemma {:induction false} StructIsLines(K: Snippets, out: string, A: Arena, t: nat)
    requires WellFormed(A) && t < |A|
    ensures StructAfter(K, out, A, t) == LinesAfter(K, out, A, StructLines(A, t))
    decreases |A| - t, 1
  {
    assert ChildrenOk(A, t);
    var d := A[t].depth;
    var op, ms, cs, cl := [Open(t)], MemberLines(t, A[t].fields), StructLinesSeq(A, t, A[t].children), [Close(t)];
    assert StructLines(A, t) == ((op + ms) + cs) + cl;
    LinesAfterAppend(K, out, A, (op + ms) + cs, cl);
    LinesAfterAppend(K, out, A, op + ms, cs);
    LinesAfterAppend(K, out, A, op, ms);
    assert op[..0] == [];
    var o1 := Indented(out, d) + K.sTable;
    assert LinesAfter(K, out, A, op) == o1;
    MembersAreLines(K, o1, A, t, A[t].fields);
    var o2 := MembersAfter(K, o1, d, A[t].fields);
    StructsAreLines(K, o2, A, t, A[t].children);
    var o3 := StructsAfter(K, o2, A, t, A[t].children);
    assert cl[..0] == [];
    assert LinesAfter(K, o3, A, cl) == Indented(o3, d) + ("} " + Cvar(A[t].name) + ";\n");
  }

  /** The same for the records of the children `cs` of `t`. */
  lemma {:induction false} StructsAreLines(K: Snippets, out: string, A: Arena, t: nat, cs: seq<nat>)
    requires WellFormed(A) && t < |A|
    requires forall k :: 0 <= k < |cs| ==> t < cs[k] < |A|
    ensures StructsAfter(K, out, A, t, cs) == LinesAfter(K, out, A, StructLinesSeq(A, t, cs))
    decreases |A| - t, 0, |cs|
  {
    if cs != [] {
      var pre, c := cs[..|cs| - 1], cs[|cs| - 1];
      StructsAreLines(K, out, A, t, pre);
      StructIsLines(K, StructsAfter(K, out, A, t, pre), A, c);
      LinesAfterAppend(K, out, A, StructLinesSeq(A, t, pre), StructLines(A, c));
    }
  }

  // ----- order of the records -----

  /** The tables whose records are opened by the lines `ls`, in order. */
  function Opens(ls: seq<Line>): seq<nat>
  {
    if ls == [] then []
    else Opens(ls[..|ls| - 1]) + (if ls[|ls| - 1].Open? then [ls[|ls| - 1].t] else [])
  }

  lemma {:induction false} OpensAppend(ls: seq<Line>, ms: seq<Line>)
    ensures Opens(ls + ms) == Opens(ls) + Opens(ms)
    decreases |ms|
  {
    if ms == [] {
      assert ls + ms == ls;
    } else {
      var ws := ls + ms;
      assert ws[..|ws| - 1] == ls + ms[..|ms| - 1];
      assert ws[|ws| - 1] == ms[|ms| - 1];
      OpensAppend(ls, ms[..|ms| - 1]);
    }
  }

  lemma {:induction false} MemberLinesOpenNothing(t: nat, fs: seq<Field>)
    ensures Opens(MemberLines(t, fs)) == []
    decreases |fs|
  {
    if fs != [] {
      var ls := MemberLines(t, fs);
      assert ls[..|ls| - 1] == MemberLines(t, fs[..|fs| - 1]);
      MemberLinesOpenNothing(t, fs[..|fs| - 1]);
    }
  }

  /** `h_struct` opens the records in pre-order — the order in which
      `decl_r`, `check_r`, `read_r`, `print_r` and `free_r` visit the tables. */
  lemma {:induction false} StructOpensInPreOrder(A: Arena, t: nat)
    requires WellFormed(A) && t < |A|
    ensures Opens(StructLines(A, t)) == PreOrder(A, t)
    decreases |A| - t, 1
  {
    assert ChildrenOk(A, t);
    var op, ms, cs, cl := [Open(t)], MemberLines(t, A[t].fields), StructLinesSeq(A, t, A[t].children), [Close(t)];
    assert StructLines(A, t) == ((op + ms) + cs) + cl;
    OpensAppend((op + ms) + cs, cl);
    OpensAppend(op + ms, cs);
    OpensAppend(op, ms);
    assert op[..0] == [] && cl[..0] == [];
    assert Opens(op) == [t];
    assert Opens(cl) == [];
    MemberLinesOpenNothing(t, A[t].fields);
    StructsOpenInPreOrder(A, t, A[t].children);
  }

  lemma {:induction false} StructsOpenInPreOrder(A: Arena, t: nat, cs: seq<nat>)
    requires WellFormed(A) && t < |A|
    requires forall k :: 0 <= k < |cs| ==> t < cs[k] < |A|
    ensures Opens(StructLinesSeq(A, t, cs)) == PreOrderSeq(A, t, cs)
    decreases |A| - t, 0, |cs|
  {
    if cs != [] {
      var pre, c := cs[..|cs| - 1], cs[|cs| - 1];
      StructsOpenInPreOrder(A, t, pre);
      StructOpensInPreOrder(A, c);
      OpensAppend(StructLinesSeq(A, t, pre), StructLines(A, c));
    }
  }

  // ----- which tables a record holds -----

  /** Every line of the record of `t` belongs to `t` or to a table below it. */
  lemma {:induction false} StructLinesUnder(A: Arena, t: nat)
    requires WellFormed(A) && t < |A|
    ensures forall k :: 0 <= k < |StructLines(A, t)| ==> Under(A, StructLines(A, t)[k].t, t)
    decreases |A| - t, 1
  {
    assert ChildrenOk(A, t);
    var op, ms, cs, cl := [Open(t)], MemberLines(t, A[t].fields), StructLinesSeq(A, t, A[t].children), [Close(t)];
    var ls := StructLines(A, t);
    assert ls == ((op + ms) + cs) + cl;
    StructsLinesUnder(A, t, A[t].children);
    forall k | 0 <= k < |ls| ensures Under(A, ls[k].t, t) {
      if 1 + |ms| <= k < |ls| - 1 {
        assert ls[k] == cs[k - 1 - |ms|];
      }
    }
  }

  lemma {:induction false} StructsLinesUnder(A: Arena, t: nat, cs: seq<nat>)
    requires WellFormed(A) && t < |A|
    requires forall k :: 0 <= k < |cs| ==> t < cs[k] < |A| && A[cs[k]].parent == Some(t)
    ensures forall k :: 0 <= k < |StructLinesSeq(A, t, cs)| ==> Under(A, StructLinesSeq(A, t, cs)[k].t, t)
    decreases |A| - t, 0, |cs|
  {
    if cs != [] {
      var pre, c := cs[..|cs| - 1], cs[|cs| - 1];
      var l1, l2 := StructLinesSeq(A, t, pre), StructLines(A, c);
      var ls := StructLinesSeq(A, t, cs);
      assert ls == l1 + l2;
      StructsLinesUnder(A, t, pre);
      StructLinesUnder(A, c);
      assert ParentOk(A, c) && Under(A, c, t);
      forall k | 0 <= k < |ls| ensures Under(A, ls[k].t, t) {
        if k >= |l1| {
          assert ls[k] == l2[k - |l1|];
          UnderTrans(A, ls[k].t, c, t);
        }
      }
    } else {
      assert StructLinesSeq(A, t, cs) == [];
    }
  }

  // ----- which records enclose a line -----

  /** The records still open after the lines `ls`, outermost first, when the
      records `S` were open before them: an opening pushes its table, a
      closing pops the innermost record. */
  function Scope(S: seq<nat>, ls: seq<Line>): seq<nat>
  {
    if ls == [] then S
    else
      var s := Scope(S, ls[..|ls| - 1]);
      match ls[|ls| - 1]
      case Open(t) => s + [t]
      case Member(_, _) => s
      case Close(_) => if s == [] then [] else s[..|s| - 1]
  }

  lemma {:induction false} ScopeAppend(S: seq<nat>, ls: seq<Line>, ms: seq<Line>)
    ensures Scope(S, ls + ms) == Scope(Scope(S, ls), ms)
    decreases |ms|
  {
    if ms == [] {
      assert ls + ms == ls;
    } else {
      var ws := ls + ms;
      assert ws[..|ws| - 1] == ls + ms[..|ms| - 1];
      assert ws[|ws| - 1] == ms[|ms| - 1];
      ScopeAppend(S, ls, ms[..|ms| - 1]);
    }
  }

  lemma {:induction false} MemberLinesKeepScope(S: seq<nat>, t: nat, fs: seq<Field>)
    ensures Scope(S, MemberLines(t, fs)) == S
    decreases |fs|
  {
    if fs != [] {
      var ls := MemberLines(t, fs);
      assert ls[..|ls| - 1] == MemberLines(t, fs[..|fs| - 1]);
      MemberLinesKeepScope(S, t, fs[..|fs| - 1]);
    }
  }

  /** Every record `h_struct` opens it also closes: its lines leave the open
      records as they found them. */
  lemma {:induction false} StructScopeBalanced(S: seq<nat>, A: Arena, t: nat)
    requires WellFormed(A) && t < |A|
    ensures Scope(S, StructLines(A, t)) == S
    decreases |A| - t, 1
  {
    assert ChildrenOk(A, t);
    var op, ms, cs, cl := [Open(t)], MemberLines(t, A[t].fields), StructLinesSeq(A, t, A[t].children), [Close(t)];
    assert StructLines(A, t) == ((op + ms) + cs) + cl;
    ScopeAppend(S, (op + ms) + cs, cl);
    ScopeAppend(S, op + ms, cs);
    ScopeAppend(S, op, ms);
    assert op[..0] == [] && cl[..0] == [];
    assert Scope(S, op) == S + [t];
    MemberLinesKeepScope(S + [t], t, A[t].fields);
    StructsScopeBalanced(S + [t], A, t, A[t].children);
    assert Scope(S + [t], cl) == S;
  }

  lemma {:induction false} StructsScopeBalanced(S: seq<nat>, A: Arena, t: nat, cs: seq<nat>)
    requires WellFormed(A) && t < |A|
    requires forall k :: 0 <= k < |cs| ==> t < cs[k] < |A|
    ensures Scope(S, StructLinesSeq(A, t, cs)) == S
    decreases |A| - t, 0, |cs|
  {
    if cs != [] {
      var pre, c := cs[..|cs| - 1], cs[|cs| - 1];
      StructsScopeBalanced(S, A, t, pre);
      StructScopeBalanced(S, A, c);
      ScopeAppend(S, StructLinesSeq(A, t, pre), StructLines(A, c));
    } else {
      assert StructLinesSeq(A, t, cs) == [];
    }
  }

  /** Inside the record of `t`, opened with the records of the tables above
      `t` already open, each member line and each closing line of a table `u`
      sits inside exactly the records of the root and the chain down to `u`. */
  lemma {:induction false} StructScope(S: seq<nat>, A: Arena, t: nat, k: nat)
    requires WellFormed(A) && t < |A| && S + [t] == [0] + Chain(A, t)
    requires k < |StructLines(A, t)| && !StructLines(A, t)[k].Open?
    ensures Scope(S, StructLines(A, t)[..k]) == [0] + Chain(A, StructLines(A, t)[k].t)
    decreases |A| - t, 1
  {
    assert ChildrenOk(A, t);
    var ms, cs := MemberLines(t, A[t].fields), StructLinesSeq(A, t, A[t].children);
    var ls := StructLines(A, t);
    assert ls == (([Open(t)] + ms) + cs) + [Close(t)];
    assert k != 0;
    if k <= |ms| {
      ScopeInMembers(S, A, t, k);
    } else if k < |ls| - 1 {
      var j := k - 1 - |ms|;
      ScopeInChildren(S, A, t, k);
      StructsScope(S + [t], A, t, A[t].children, j);
    } else {
      ScopeAtClose(S, A, t);
    }
  }

  /** The members of `t` sit inside the records `S` and that of `t`. */
  lemma ScopeInMembers(S: seq<nat>, A: Arena, t: nat, k: nat)
    requires WellFormed(A) && t < |A| && 0 < k <= |A[t].fields|
    ensures k < |StructLines(A, t)| && StructLines(A, t)[k] == Member(t, A[t].fields[k - 1])
    ensures Scope(S, StructLines(A, t)[..k]) == S + [t]
  {
    assert ChildrenOk(A, t);
    var op, ms, cs := [Open(t)], MemberLines(t, A[t].fields), StructLinesSeq(A, t, A[t].children);
    var ls := StructLines(A, t);
    assert ls == ((op + ms) + cs) + [Close(t)];
    assert ls[..k] == op + ms[..k - 1];
    assert ms[..k - 1] == MemberLines(t, A[t].fields[..k - 1]);
    ScopeAppend(S, op, ms[..k - 1]);
    assert op[..0] == [];
    MemberLinesKeepScope(S + [t], t, A[t].fields[..k - 1]);
  }

  /** Past the members, the lines of the children's records sit inside `S`,
      the record of `t`, and what those lines themselves open. */
  lemma ScopeInChildren(S: seq<nat>, A: Arena, t: nat, k: nat)
    requires WellFormed(A) && t < |A|
    requires ChildrenOk(A, t)
    requires 1 + |A[t].fields| <= k < |StructLines(A, t)| - 1
    ensures var cs, j := StructLinesSeq(A, t, A[t].children), k - 1 - |A[t].fields|;
      j < |cs| && StructLines(A, t)[k] == cs[j] && Scope(S, StructLines(A, t)[..k]) == Scope(S + [t], cs[..j])
  {
    var op, ms, cs := [Open(t)], MemberLines(t, A[t].fields), StructLinesSeq(A, t, A[t].children);
    var ls := StructLines(A, t);
    var j := k - 1 - |ms|;
    assert ls == ((op + ms) + cs) + [Close(t)];
    assert ls[..k] == (op + ms) + cs[..j];
    ScopeAppend(S, op + ms, cs[..j]);
    ScopeAppend(S, op, ms);
    assert op[..0] == [];
    MemberLinesKeepScope(S + [t], t, A[t].fields);
  }

  /** The closing line of `t` sits inside `S` and the record of `t`. */
  lemma ScopeAtClose(S: seq<nat>, A: Arena, t: nat)
    requires WellFormed(A) && t < |A|
    ensures var ls := StructLines(A, t);
      ls[|ls| - 1] == Close(t) && Scope(S, ls[..|ls| - 1]) == S + [t]
  {
    assert ChildrenOk(A, t);
    var op, ms, cs := [Open(t)], MemberLines(t, A[t].fields), StructLinesSeq(A, t, A[t].children);
    var ls := StructLines(A, t);
    assert ls == ((op + ms) + cs) + [Close(t)];
    assert ls[..|ls| - 1] == (op + ms) + cs;
    ScopeAppend(S, op + ms, cs);
    ScopeAppend(S, op, ms);
    assert op[..0] == [];
    MemberLinesKeepScope(S + [t], t, A[t].fields);
    StructsScopeBalanced(S + [t], A, t, A[t].children);
  }

  lemma {:induction false} StructsScope(S: seq<nat>, A: Arena, t: nat, cs: seq<nat>, j: nat)
    requires WellFormed(A) && t < |A| && S == [0] + Chain(A, t)
    requires forall k :: 0 <= k < |cs| ==> t < cs[k] < |A| && A[cs[k]].parent == Some(t)
    requires j < |StructLinesSeq(A, t, cs)| && !StructLinesSeq(A, t, cs)[j].Open?
    ensures Scope(S, StructLinesSeq(A, t, cs)[..j]) == [0] + Chain(A, StructLinesSeq(A, t, cs)[j].t)
    decreases |A| - t, 0, |cs|
  {
    var pre, c := cs[..|cs| - 1], cs[|cs| - 1];
    var l1, l2 := StructLinesSeq(A, t, pre), StructLines(A, c);
    var ls := StructLinesSeq(A, t, cs);
    assert ls == l1 + l2;
    if j < |l1| {
      assert ls[..j] == l1[..j] && ls[j] == l1[j];
      StructsScope(S, A, t, pre, j);
    } else {
      var i := j - |l1|;
      assert ls[..j] == l1 + l2[..i] && ls[j] == l2[i];
      ScopeAppend(S, l1, l2[..i]);
      StructsScopeBalanced(S, A, t, pre);
      assert ParentOk(A, c);
      assert Chain(A, c) == Chain(A, t) + [c];
      StructScope(S, A, c, i);
    }
  }

  /** The member path of every field mirrors the record nesting: a member
      line of table `u` in the header sits inside exactly the records of the
      root and of the chain of tables down to `u`; and `get_path_var`, the
      path the read, print and free routines use for that member, is the
      names those enclosing records close with (`Cvar` of the table name,
      as in the closing line), each followed by '.', then the sanitised
      member name. A closing line likewise closes the innermost open record,
      that of its own table. */
  lemma MemberPathFollowsRecords(A: Arena, k: nat)
    requires WellFormed(A) && k < |StructLines(A, 0)| && !StructLines(A, 0)[k].Open?
    ensures var l, open := StructLines(A, 0)[k], Scope([], StructLines(A, 0)[..k]);
      open == [0] + Chain(A, l.t) &&
      (l.Member? ==> GetPathVar(A, l.t, l.f.name) == Dotted(A, open[1..]) + Cvar(l.f.name))
  {
    var l := StructLines(A, 0)[k];
    assert ParentOk(A, 0);
    assert Chain(A, 0) == [];
    StructScope([], A, 0, k);
    var open := Scope([], StructLines(A, 0)[..k]);
    assert open[1..] == Chain(A, l.t);
    if l.Member? {
      PathVarShape(A, l.t, l.f.name);
    }
  }
}
