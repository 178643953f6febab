/** The passes of `c_src` all walk the tables in one order, the pre-order of
    the arena; the parent lookups of `check_r` only use handles already
    declared and assigned; the end of the handle declaration is patched. */
module Passes {
  import opened Seqs
  import opened Names
  import opened Schema
  import opened Paths
  import opened Emit

  /** Visiting `us` and then `vs` is visiting `us + vs`. */
  lemma {:induction false} PassAfterAppend(K: Snippets, out: string, A: Arena, base: string, pass: Pass, us: seq<nat>, vs: seq<nat>)
    requires WellFormed(A)
    requires forall k :: 0 <= k < |us| ==> us[k] < |A|
    requires forall k :: 0 <= k < |vs| ==> vs[k] < |A|
    ensures PassAfter(K, out, A, base, pass, us + vs) == PassAfter(K, PassAfter(K, out, A, base, pass, us), A, base, pass, vs)
    decreases |vs|
  {
    if vs == [] {
      assert us + vs == us;
    } else {
      var ws, v, pre := us + vs, vs[|vs| - 1], vs[..|vs| - 1];
      assert ws[..|ws| - 1] == us + pre;
      PassAfterAppend(K, out, A, base, pass, us, pre);
      var o := PassAfter(K, out, A, base, pass, us + pre);
      assert PassAfter(K, out, A, base, pass, ws) == TableAfter(K, o, A, base, pass, v);
      var o' := PassAfter(K, out, A, base, pass, us);
      assert PassAfter(K, o', A, base, pass, vs) == TableAfter(K, PassAfter(K, o', A, base, pass, pre), A, base, pass, v);
    }
  }

  /** A recursive pass (`decl_r`, `check_r`, `read_r`, `print_r`, `free_r`)
      started at `t` emits exactly what visiting the tables of `PreOrder(A, t)`
      one by one emits. */
  lemma {:induction false} TreeIsPreOrder(K: Snippets, out: string, A: Arena, base: string, pass: Pass, t: nat)
    requires WellFormed(A) && t < |A|
    ensures TreeAfter(K, out, A, base, pass, t) == PassAfter(K, out, A, base, pass, PreOrder(A, t))
    decreases |A| - t, 1
  {
    assert ChildrenOk(A, t);
    var o := TableAfter(K, out, A, base, pass, t);
    ForestIsPreOrder(K, o, A, base, pass, t, A[t].children);
    PassAfterAppend(K, out, A, base, pass, [t], PreOrderSeq(A, t, A[t].children));
    assert [t][..0] == [];
    assert PassAfter(K, out, A, base, pass, [t]) == o;
  }

  /** The same for the children loop of a pass. */
  lemma {:induction false} ForestIsPreOrder(K: Snippets, out: string, A: Arena, base: string, pass: Pass, t: nat, cs: seq<nat>)
    requires WellFormed(A) && t < |A|
    requires forall k :: 0 <= k < |cs| ==> t < cs[k] < |A|
    ensures ForestAfter(K, out, A, base, pass, t, cs) == PassAfter(K, out, A, base, pass, PreOrderSeq(A, t, cs))
    decreases |A| - t, 0, |cs|
  {
    if cs != [] {
      var pre, c := cs[..|cs| - 1], cs[|cs| - 1];
      ForestIsPreOrder(K, out, A, base, pass, t, pre);
      TreeIsPreOrder(K, ForestAfter(K, out, A, base, pass, t, pre), A, base, pass, c);
      PassAfterAppend(K, out, A, base, pass, PreOrderSeq(A, t, pre), PreOrder(A, c));
    }
  }

  // ----- parent lookups -----

  /** Table `P[j]` of the pre-order is looked up by `check_r` in `root` or in
      the handle of a table at an earlier position `k > 0` — the handle
      `decl_r` declared for it and `check_r` assigned before reaching `P[j]`.
      This needs every table below the root to have a non-empty name. */
  lemma CheckParentDeclared(A: Arena, j: nat)
    requires WellFormed(A)
    requires forall i :: 0 < i < |A| ==> A[i].name != ""
    requires 0 < j < |PreOrder(A, 0)|
    ensures var P := PreOrder(A, 0);
      GetParentPath(A, P[j], "") == "root" ||
      exists k :: 0 < k < j && GetParentPath(A, P[j], "") == Handle(A, P[k])
  {
    var P := PreOrder(A, 0);
    assert ChildrenOk(A, 0);
    var S := PreOrderSeq(A, 0, A[0].children);
    assert P[j] == S[j - 1];
    var t := P[j];
    PreOrderParentFirst(A, 0);
    assert ParentEarlier(A, P, j);
    var k :| 0 <= k < j && A[t].parent == Some(P[k]);
    assert ParentOk(A, t);
    ParentLookup(A, t, P[k]);
    if P[k] != 0 {
      assert k != 0;
    }
  }

  // ----- the end of the handle declaration -----

  /** With tables below the root, listed in pre-order as `u`, the patch turns
      the ", " after the last declared handle into "; ", ending the
      declaration. */
  lemma LastHandleEndsDeclaration(K: Snippets, out: string, A: Arena, base: string, u: seq<nat>)
    requires WellFormed(A) && u == PreOrder(A, 0)[1..] && |u| > 0
    ensures HandlesAfter(K, out, A, base)
        == PassAfter(K, out, A, base, Decl, u[..|u| - 1]) + ("*" + Handle(A, u[|u| - 1]) + "; \n")
  {
    assert ChildrenOk(A, 0);
    assert u == PreOrderSeq(A, 0, A[0].children);
    var x, dd := PassAfter(K, out, A, base, Decl, u[..|u| - 1]), "*" + Handle(A, u[|u| - 1]);
    ForestIsPreOrder(K, out, A, base, Decl, 0, A[0].children);
    DeclPassEnds(K, out, A, base, u);
    PatchComma(x, dd);
    assert HandlesAfter(K, out, A, base) == (x + (dd + "; ")) + "\n";
    AppendAssoc(x, dd + "; ", "\n");
    AppendAssoc(dd, "; ", "\n");
    assert "; " + "\n" == "; \n";
  }

  /** The declaration pass ends with the handle of its last table and ", ". */
  lemma DeclPassEnds(K: Snippets, out: string, A: Arena, base: string, u: seq<nat>)
    requires WellFormed(A) && |u| > 0 && forall k :: 0 <= k < |u| ==> u[k] < |A|
    ensures PassAfter(K, out, A, base, Decl, u)
      == PassAfter(K, out, A, base, Decl, u[..|u| - 1]) + ("*" + Handle(A, u[|u| - 1]) + ", ")
  {
  }

  /** Patching a buffer that ends with a declaration and ", " ends it with "; ". */
  lemma PatchComma(x: string, d: string)
    ensures Patch(x + (d + ", ")) == x + (d + "; ")
  {
    var s := x + (d + ", ");
    assert Patch(s) == s[|s| - 2 := ';'];
  }

  /** With no table below the root, the patch instead overwrites the
      character before the last of whatever precedes: the text of `c_src`
      ends with `toml_table_t ` there, whose `t` becomes ';'. */
  lemma EmptyRootPatch(K: Snippets, out: string, A: Arena, base: string, pre: string)
    requires WellFormed(A) && A[0].children == []
    requires out == pre + "t "
    ensures HandlesAfter(K, out, A, base) == pre + "; \n"
  {
    assert ChildrenOk(A, 0);
    assert ForestAfter(K, out, A, base, Decl, 0, []) == out;
    assert Patch(out) == pre + "; ";
  }

  /** The text before the handles always ends with `toml_table_t `. */
  lemma ParseEndsWithTableType(o: string, name: string)
    ensures var s := ParseAfter(Toml2c, o, name);
      |s| >= 13 && s[|s| - 13..] == "toml_table_t "
  {
    var K := Toml2c;
    var p := K.parseFailed;
    assert |p| >= 13 && p[|p| - 13..] == "toml_table_t ";
    var s := ParseAfter(K, o, name);
    var r := s[..|s| - |p|];
    assert s == r + p;
    assert s[|s| - 13..] == p[|p| - 13..];
  }

  // ----- what the free pass releases -----

  /** `free_r` emits something for a field exactly when the generated record
      owns memory for it: a string or an array of a known element type;
      and what it emits ends by releasing that member. */
  lemma FreeRule(K: Snippets, out: string, A: Arena, base: string, t: nat, f: Field)
    requires WellFormed(A) && t < |A|
    ensures FreeFieldAfter(K, out, A, base, t, f) != out <==>
      f.kind in {Str, ArrayOfInt, ArrayOfDouble, ArrayOfBool, ArrayOfString}
    ensures f.kind in {Str, ArrayOfInt, ArrayOfDouble, ArrayOfBool, ArrayOfString} ==>
      var r, tail := FreeFieldAfter(K, out, A, base, t, f), "    free(" + base + "->" + GetPathVar(A, t, f.name) + ");\n";
      |r| >= |out| + |tail| && r[|r| - |tail|..] == tail
  {
    var tail := "    free(" + base + "->" + GetPathVar(A, t, f.name) + ");\n";
    var r := FreeFieldAfter(K, out, A, base, t, f);
    if f.kind in {Str, ArrayOfInt, ArrayOfDouble, ArrayOfBool, ArrayOfString} {
      assert |r| >= |out| + |tail|;
      var x := r[..|r| - |tail|];
      assert r == x + tail;
    }
  }

  // ----- what the read pass allocates -----

  /** A boolean array is allocated with the element size of a double array:
      up to and including its allocation line, the read of a boolean array is
      the read of a double array of the same name. */
  lemma BoolArrayAllocatedAsDouble(K: Snippets, out: string, A: Arena, base: string, t: nat, name: string)
    requires WellFormed(A) && t < |A|
    ensures var b, d := ReadFieldAfter(K, out, A, base, t, Field(name, ArrayOfBool)),
                        ReadFieldAfter(K, out, A, base, t, Field(name, ArrayOfDouble));
      exists n :: |out| + |K.mallocDouble| <= n <= |b| && n <= |d| && b[..n] == d[..n]
        && b[n - |K.mallocDouble|..n] == K.mallocDouble
  {
    var h, key, v := GetPath(A, t, A[t].name), Tvar(name), GetPathVar(A, t, name);
    var head := out + (K.arrayIn + h + ", \"" + key + "\");\n") + ("    (*" + base + ")->" + v + K.mallocDouble);
    var b := ReadFieldAfter(K, out, A, base, t, Field(name, ArrayOfBool));
    var d := ReadFieldAfter(K, out, A, base, t, Field(name, ArrayOfDouble));
    var n := |head|;
    assert b[..n] == head;
    assert d[..n] == head;
    assert head[n - |K.mallocDouble|..] == K.mallocDouble;
    assert |out| + |K.mallocDouble| <= n <= |b| && n <= |d| && b[..n] == d[..n]
      && b[n - |K.mallocDouble|..n] == K.mallocDouble;
  }
}
