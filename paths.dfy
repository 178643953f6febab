/** The three path builders of `Writer::c_src` (`get_path`,
    `get_parent_path`, `get_path_var`) and the facts that keep them in step. */
module Paths {
  import opened Seqs
  import opened Names
  import opened Schema

  /** `get_path`: walking up from `t`, each step puts the parent's name (or
      "root" when the parent has depth 0) and '_' in front of `path`; at the
      root the whole is sanitised. */
  function GetPath(A: Arena, t: nat, path: string): string
    requires WellFormed(A) && t < |A|
    decreases t
  {
    assert ParentOk(A, t);
    match A[t].parent
    case Some(p) => GetPath(A, p, (if A[p].depth != 0 then A[p].name else "root") + "_" + path)
    case None => Cvar(path)
  }

  /** `get_parent_path`: as `get_path`, except that no '_' is put in front of
      an empty path. */
  function GetParentPath(A: Arena, t: nat, path: string): string
    requires WellFormed(A) && t < |A|
    decreases t
  {
    assert ParentOk(A, t);
    match A[t].parent
    case Some(p) =>
      GetParentPath(A, p, (if A[p].depth != 0 then A[p].name else "root") + (if |path| > 0 then "_" + path else ""))
    case None => Cvar(path)
  }

  /** `get_path_var`: walking up from `t`, each non-root table puts its own
      name and '.' in front of `path`; at the root the whole is sanitised. */
  function GetPathVar(A: Arena, t: nat, path: string): string
    requires WellFormed(A) && t < |A|
    decreases t
  {
    assert ParentOk(A, t);
    match A[t].parent
    case Some(p) => GetPathVar(A, p, A[t].name + "." + path)
    case None => Cvar(path)
  }

  /** `s` ends with `suffix`. */
  predicate EndsWith(s: string, suffix: string)
  {
    |suffix| <= |s| && s[|s| - |suffix|..] == suffix
  }

  /** Whatever ends with the sanitised `q + path` ends with the sanitised `path`. */
  lemma SanitisedSuffix(q: string, path: string)
    ensures forall s :: EndsWith(s, Cvar(q + path)) ==> EndsWith(s, Cvar(path))
  {
    CvarAppend(q, path);
    forall s | EndsWith(s, Cvar(q + path)) ensures EndsWith(s, Cvar(path)) {
      var m := |s| - |Cvar(q + path)|;
      assert s[m..] == Cvar(q) + Cvar(path);
      assert s[|s| - |Cvar(path)|..] == s[m..][|Cvar(q)|..];
    }
  }

  /** `get_path` yields a C identifier part: no '-' is left, and it ends
      with the sanitised `path` it was given. */
  lemma {:induction false} GetPathSanitised(A: Arena, t: nat, path: string)
    requires WellFormed(A) && t < |A|
    ensures '-' !in GetPath(A, t, path) && EndsWith(GetPath(A, t, path), Cvar(path))
    decreases t
  {
    assert ParentOk(A, t);
    if A[t].parent.Some? {
      var p := A[t].parent.value;
      var q := (if A[p].depth != 0 then A[p].name else "root") + "_";
      GetPathSanitised(A, p, q + path);
      SanitisedSuffix(q, path);
    } else {
      assert Cvar(path)[|Cvar(path)| - |Cvar(path)|..] == Cvar(path);
    }
  }

  /** The same for `get_parent_path`. */
  lemma {:induction false} GetParentPathSanitised(A: Arena, t: nat, path: string)
    requires WellFormed(A) && t < |A|
    ensures '-' !in GetParentPath(A, t, path) && EndsWith(GetParentPath(A, t, path), Cvar(path))
    decreases t
  {
    assert ParentOk(A, t);
    if A[t].parent.Some? {
      var p := A[t].parent.value;
      var n := if A[p].depth != 0 then A[p].name else "root";
      if |path| > 0 {
        GetParentPathSanitised(A, p, n + ("_" + path));
        assert n + ("_" + path) == (n + "_") + path;
        SanitisedSuffix(n + "_", path);
      } else {
        GetParentPathSanitised(A, p, n + "");
      }
    } else {
      assert Cvar(path)[|Cvar(path)| - |Cvar(path)|..] == Cvar(path);
    }
  }

  /** The same for `get_path_var`. */
  lemma {:induction false} GetPathVarSanitised(A: Arena, t: nat, path: string)
    requires WellFormed(A) && t < |A|
    ensures '-' !in GetPathVar(A, t, path) && EndsWith(GetPathVar(A, t, path), Cvar(path))
    decreases t
  {
    assert ParentOk(A, t);
    if A[t].parent.Some? {
      var p := A[t].parent.value;
      GetPathVarSanitised(A, p, A[t].name + "." + path);
      SanitisedSuffix(A[t].name + ".", path);
    } else {
      assert Cvar(path)[|Cvar(path)| - |Cvar(path)|..] == Cvar(path);
    }
  }

  /** The local handle the read routine keeps for table `t`:
      `get_path(t, t.name)`. */
  function Handle(A: Arena, t: nat): string
    requires WellFormed(A) && t < |A|
  {
    GetPath(A, t, A[t].name)
  }

  /** The non-root tables from the top down to `t` (empty for the root). */
  function Chain(A: Arena, t: nat): (r: seq<nat>)
    requires WellFormed(A) && t < |A|
    ensures forall k :: 0 <= k < |r| ==> 0 < r[k] < |A|
    ensures t != 0 ==> |r| > 0 && r[|r| - 1] == t
    decreases t
  {
    assert ParentOk(A, t);
    match A[t].parent
    case Some(p) => Chain(A, p) + [t]
    case None => []
  }

  /** One `<sanitised name>.` segment per table of `cs`. */
  function Dotted(A: Arena, cs: seq<nat>): string
    requires forall k :: 0 <= k < |cs| ==> cs[k] < |A|
  {
    if cs == [] then "" else Dotted(A, cs[..|cs| - 1]) + Cvar(A[cs[|cs| - 1]].name) + "."
  }

  /** The occurrences of `c` in `s`. */
  function Count(c: char, s: string): nat
  {
    if s == [] then 0 else Count(c, s[..|s| - 1]) + (if s[|s| - 1] == c then 1 else 0)
  }

  // ----- parent lookup -----

  /** For a non-empty path the two builders agree. */
  lemma {:induction false} ParentPathAgrees(A: Arena, t: nat, s: string)
    requires WellFormed(A) && t < |A| && |s| > 0
    ensures GetParentPath(A, t, s) == GetPath(A, t, s)
    decreases t
  {
    assert ParentOk(A, t);
    match A[t].parent
    case Some(p) =>
      var x := if A[p].depth != 0 then A[p].name else "root";
      assert x + ("_" + s) == x + "_" + s;
      ParentPathAgrees(A, p, x + "_" + s);
    case None =>
  }

  /** The table `check_r` looks table `t` up in: the generated `root` handle
      when the parent is the root, otherwise the handle `decl_r` declared for
      the parent, provided that parent's name is not empty. */
  lemma ParentLookup(A: Arena, t: nat, p: nat)
    requires WellFormed(A) && 0 < t < |A| && A[t].parent == Some(p) && p < |A|
    ensures p == 0 ==> GetParentPath(A, t, "") == "root"
    ensures p != 0 && A[p].name != "" ==> GetParentPath(A, t, "") == Handle(A, p)
  {
    assert ParentOk(A, t);
    assert ParentOk(A, 0);
    if p == 0 {
      CvarNoDash("root");
    } else {
      assert ParentOk(A, p);
      if A[p].name != "" {
        assert A[p].name + "" == A[p].name;
        ParentPathAgrees(A, p, A[p].name);
      }
    }
  }

  /** Without a non-empty parent name the lookup goes wrong: a table under an
      empty-named table at the top level is looked up in `root` ... */
  lemma EmptyNameMisleadsLookup(A: Arena, t: nat, p: nat)
    requires WellFormed(A) && t < |A| && A[t].parent == Some(p) && p < |A|
    requires A[p].name == "" && A[p].parent == Some(0)
    ensures GetParentPath(A, t, "") == "root"
  {
    assert ParentOk(A, t);
    assert ParentOk(A, p);
    assert ParentOk(A, 0);
    assert A[p].depth == 1;
    var e: string := "";
    assert e + e == e;
    assert GetParentPath(A, t, e) == GetParentPath(A, p, e + e);
    var r: string := "root";
    assert r + e == r;
    assert GetParentPath(A, p, e) == GetParentPath(A, 0, r + e);
    CvarNoDash(r);
  }

  /** ... while the handle declared for that parent is `root_`. */
  lemma EmptyNameHandle(A: Arena, p: nat)
    requires WellFormed(A) && p < |A| && A[p].name == "" && A[p].parent == Some(0)
    ensures Handle(A, p) == "root_"
  {
    assert ParentOk(A, p);
    assert ParentOk(A, 0);
    var e: string := "";
    var r_: string := "root" + "_";
    assert r_ + e == r_;
    assert GetPath(A, p, e) == GetPath(A, 0, r_ + e);
    CvarNoDash(r_);
  }

  // ----- local handles -----

  /** What `get_path` puts in front of the path it is given: "root_", then
      the name of each non-root ancestor followed by '_'. */
  function PathPrefix(A: Arena, t: nat): string
    requires WellFormed(A) && t < |A|
    decreases t
  {
    assert ParentOk(A, t);
    match A[t].parent
    case Some(p) => PathPrefix(A, p) + (if A[p].depth != 0 then A[p].name else "root") + "_"
    case None => ""
  }

  lemma {:induction false} PathShape(A: Arena, t: nat, s: string)
    requires WellFormed(A) && t < |A|
    ensures GetPath(A, t, s) == Cvar(PathPrefix(A, t) + s)
    decreases t
  {
    assert ParentOk(A, t);
    match A[t].parent
    case Some(p) =>
      var n := if A[p].depth != 0 then A[p].name else "root";
      PathShape(A, p, n + "_" + s);
      AppendAssoc(PathPrefix(A, p), n + "_", s);
      AppendAssoc(PathPrefix(A, p), n, "_");
    case None =>
  }

  /** Below the root the prefix starts with "root_". */
  lemma {:induction false} PathPrefixStartsWithRoot(A: Arena, t: nat)
    requires WellFormed(A) && 0 < t < |A|
    ensures |PathPrefix(A, t)| >= 5 && PathPrefix(A, t)[..5] == "root_"
    decreases t
  {
    assert ParentOk(A, t);
    var p := A[t].parent.value;
    assert ParentOk(A, p);
    if p == 0 {
      assert ParentOk(A, 0);
      assert PathPrefix(A, t) == "" + "root" + "_";
    } else {
      PathPrefixStartsWithRoot(A, p);
      var x := (if A[p].depth != 0 then A[p].name else "root") + "_";
      assert PathPrefix(A, t) == PathPrefix(A, p) + x;
      assert PathPrefix(A, t)[..5] == PathPrefix(A, p)[..5];
    }
  }

  /** Every declared handle starts with "root_", so none is the `root` handle
      itself. */
  lemma HandleStartsWithRoot(A: Arena, t: nat)
    requires WellFormed(A) && 0 < t < |A|
    ensures |Handle(A, t)| >= 5 && Handle(A, t)[..5] == "root_"
    ensures Handle(A, t) != "root"
  {
    PathShape(A, t, A[t].name);
    PathPrefixStartsWithRoot(A, t);
    var x := PathPrefix(A, t) + A[t].name;
    var h := Handle(A, t);
    assert h == Cvar(x);
    forall i | 0 <= i < 5 ensures h[i] == "root_"[i] {
      assert x[i] == "root_"[i];
    }
    assert |h| != 4;
  }

  /** The quirk of `get_path(root, root.name)`: for the root it yields the
      root's own (type) name, not `root`. */
  lemma RootHandleIsTypeName(A: Arena)
    requires WellFormed(A) && '-' !in A[0].name
    ensures Handle(A, 0) == A[0].name
  {
    assert ParentOk(A, 0);
    CvarNoDash(A[0].name);
  }

  // ----- member paths -----

  /** The chain has one table per level: its length is the depth of `t`, and
      each table in it is the parent of the next. */
  lemma {:induction false} ChainDepth(A: Arena, t: nat)
    requires WellFormed(A) && t < |A|
    ensures |Chain(A, t)| == A[t].depth
    ensures forall k :: 0 < k < |Chain(A, t)| ==> A[Chain(A, t)[k]].parent == Some(Chain(A, t)[k - 1])
    ensures |Chain(A, t)| > 0 ==> A[Chain(A, t)[0]].parent == Some(0)
    decreases t
  {
    assert ParentOk(A, t);
    if t != 0 {
      var p := A[t].parent.value;
      ChainDepth(A, p);
      assert ParentOk(A, p);
    }
  }

  /** `get_path_var` is the sanitised names of the non-root tables from the
      top down to `t`, each followed by '.', then the sanitised path. */
  lemma {:induction false} PathVarShape(A: Arena, t: nat, s: string)
    requires WellFormed(A) && t < |A|
    ensures GetPathVar(A, t, s) == Dotted(A, Chain(A, t)) + Cvar(s)
    decreases t
  {
    assert ParentOk(A, t);
    match A[t].parent
    case Some(p) =>
      var n := A[t].name;
      PathVarShape(A, p, n + "." + s);
      CvarAppend(n + ".", s);
      CvarAppend(n, ".");
      CvarNoDash(".");
      var cs := Chain(A, t);
      assert cs[..|cs| - 1] == Chain(A, p);
      var d, c, x := Dotted(A, Chain(A, p)), Cvar(n), Cvar(s);
      AppendAssoc(d + c, ".", x);
      AppendAssoc(d, c, "." + x);
      AppendAssoc(c, ".", x);
    case None =>
  }

  /** For a field of `t`, the member path has exactly as many '.' as `t` is
      deep, provided no table name on the way and not the field name holds a '.'. */
  lemma MemberPathDots(A: Arena, t: nat, f: string)
    requires WellFormed(A) && t < |A|
    requires forall k :: 0 <= k < |Chain(A, t)| ==> '.' !in A[Chain(A, t)[k]].name
    requires '.' !in f
    ensures Count('.', GetPathVar(A, t, f)) == A[t].depth
  {
    PathVarShape(A, t, f);
    ChainDepth(A, t);
    DottedDots(A, Chain(A, t));
    CountAppend('.', Dotted(A, Chain(A, t)), Cvar(f));
    NoCount('.', Cvar(f));
  }

  lemma {:induction false} DottedDots(A: Arena, cs: seq<nat>)
    requires forall k :: 0 <= k < |cs| ==> cs[k] < |A| && '.' !in A[cs[k]].name
    ensures Count('.', Dotted(A, cs)) == |cs|
  {
    if cs != [] {
      var pre, c := cs[..|cs| - 1], cs[|cs| - 1];
      DottedDots(A, pre);
      CountAppend('.', Dotted(A, pre), Cvar(A[c].name));
      CountAppend('.', Dotted(A, pre) + Cvar(A[c].name), ".");
      NoCount('.', Cvar(A[c].name));
      assert Count('.', ".") == Count('.', "") + 1;
    }
  }

  lemma {:induction false} CountAppend(c: char, a: string, b: string)
    ensures Count(c, a + b) == Count(c, a) + Count(c, b)
    decreases |b|
  {
    if b != [] {
      var ab := a + b;
      assert ab[..|ab| - 1] == a + b[..|b| - 1];
      assert ab[|ab| - 1] == b[|b| - 1];
      assert Count(c, ab) == Count(c, ab[..|ab| - 1]) + (if ab[|ab| - 1] == c then 1 else 0);
      CountAppend(c, a, b[..|b| - 1]);
    } else {
      assert a + b == a;
    }
  }

  lemma {:induction false} NoCount(c: char, s: string)
    requires c !in s
    ensures Count(c, s) == 0
  {
    if s != [] {
      NoCount(c, s[..|s| - 1]);
    }
  }
}
