/** The inferred schema: field kinds, fields, the tables kept in an arena
    addressed by index (the `tables` deque of `Reader`), and the pure
    specification of what `Reader::tabler` appends to that arena. */
module Schema {
  import opened Names
  import opened Toml

  /** `Field::Type`. `UntypedArray` (`t_array`) is declared but never produced. */
  datatype Kind =
    | Int | Double | Bool | Str
    | UntypedArray
    | ArrayOfInt | ArrayOfDouble | ArrayOfBool | ArrayOfString
  {
    /** The kinds declared as a pointer plus a paired `_len` member. */
    predicate IsArray() { !(Int? || Double? || Bool? || Str?) }
  }

  datatype Field = Field(name: string, kind: Kind)

  /** The `Field` constructor: the key is stored sanitised. */
  function NewField(key: string, kind: Kind): (f: Field)
    ensures f.kind == kind && |f.name| == |key| && '-' !in f.name
    ensures forall i :: 0 <= i < |key| && key[i] != '-' ==> f.name[i] == key[i]
  {
    Field(Cvar(key), kind)
  }

  /** One table. `parent` and `children` are indices into the arena; `name`
      is the raw key for a nested table and the root type name for the root. */
  datatype Table = Table(fields: seq<Field>, children: seq<nat>, parent: Option<nat>, depth: nat, name: string)

  type Arena = seq<Table>

  /** Table `i` hangs under a parent of smaller index, one level deeper, and
      is listed among that parent's children; the root has no parent and depth 0. */
  ghost predicate ParentOk(A: Arena, i: nat)
    requires i < |A|
  {
    if i == 0 then A[0].parent.None? && A[0].depth == 0
    else
      && A[i].parent.Some?
      && A[i].parent.value < i
      && A[i].depth == A[A[i].parent.value].depth + 1
      && i in A[A[i].parent.value].children
  }

  /** The children of table `i` come after it, point back to it and are in
      increasing (that is, creation) order. */
  ghost predicate ChildrenOk(A: Arena, i: nat)
    requires i < |A|
  {
    && (forall k :: 0 <= k < |A[i].children| ==>
          i < A[i].children[k] < |A| && A[A[i].children[k]].parent == Some(i))
    && (forall k, l :: 0 <= k < l < |A[i].children| ==> A[i].children[k] < A[i].children[l])
  }

  /** The arena is a tree rooted at index 0. */
  ghost predicate WellFormed(A: Arena)
  {
    |A| > 0 && forall i :: 0 <= i < |A| ==> ParentOk(A, i) && ChildrenOk(A, i)
  }

  /** The one-table arena `Reader::parser` starts from. */
  function RootArena(name: string): (A: Arena)
    ensures WellFormed(A) && |A| == 1 && A[0].name == name
  {
    [Table.Table([], [], None, 0, name)]
  }

  // ----- classification -----

  /** The outer switch of `tabler` on a scalar node. */
  function ScalarKind(t: Tag): Option<Kind>
  {
    match t
    case TInteger => Some(Int)
    case TString => Some(Str)
    case TFloat => Some(Double)
    case TBoolean => Some(Bool)
    case _ => None
  }

  /** The inner switch of `tabler` on the first element of a homogeneous array. */
  function ElementKind(t: Tag): Option<Kind>
  {
    match t
    case TInteger => Some(ArrayOfInt)
    case TFloat => Some(ArrayOfDouble)
    case TBoolean => Some(ArrayOfBool)
    case TString => Some(ArrayOfString)
    case _ => None
  }

  /** Every element has the node type of the first. */
  predicate Homogeneous(items: seq<Value>)
    requires |items| > 0
  {
    forall i :: 0 <= i < |items| ==> TagOf(items[i]) == TagOf(items[0])
  }

  /** The kind of field an array becomes, if any. */
  function ArrayKind(items: seq<Value>): Option<Kind>
    requires |items| > 0
  {
    if Homogeneous(items) then ElementKind(TagOf(items[0])) else None
  }

  /** An array yields a field exactly when it is homogeneous and its first
      element is an integer, float, boolean or string; the field then has the
      matching array kind, and never the untyped array kind. */
  lemma ArrayKindRule(items: seq<Value>)
    requires |items| > 0
    ensures ArrayKind(items).Some? <==>
      Homogeneous(items) && TagOf(items[0]) in {TInteger, TFloat, TBoolean, TString}
    ensures ArrayKind(items) == Some(ArrayOfInt) <==> Homogeneous(items) && items[0].Integer?
    ensures ArrayKind(items) == Some(ArrayOfDouble) <==> Homogeneous(items) && items[0].Float?
    ensures ArrayKind(items) == Some(ArrayOfBool) <==> Homogeneous(items) && items[0].Boolean?
    ensures ArrayKind(items) == Some(ArrayOfString) <==> Homogeneous(items) && items[0].String?
    ensures ArrayKind(items) != Some(UntypedArray)
  {
  }

  /** `[1, "a"]` is mixed and yields nothing; `[1, 2, 3]` yields an integer array. */
  lemma ArrayKindExamples()
    ensures ArrayKind([Integer, String]) == None
    ensures ArrayKind([Integer, Integer, Integer]) == Some(ArrayOfInt)
    ensures ArrayKind([Value.Table([]), Value.Table([])]) == None
  {
    assert TagOf([Integer, String][1]) != TagOf([Integer, String][0]);
  }

  /** Every array reached by `tabler` is non-empty (it reads element 0), at every level. */
  ghost predicate Loadable(es: seq<Entry>)
  {
    forall i :: 0 <= i < |es| ==> EntryLoadable(es[i])
  }

  ghost predicate EntryLoadable(e: Entry)
  {
    match e.value
    case Array(items) => |items| > 0
    case Table(sub) => Loadable(sub)
    case _ => true
  }

  /** The field a key/value pair adds to its table, if any. */
  function FieldOf(e: Entry): Option<Field>
    requires e.value.Array? ==> |e.value.items| > 0
  {
    match e.value
    case Array(items) =>
      (match ArrayKind(items)
       case Some(k) => Some(NewField(e.key, k))
       case None => None)
    case _ =>
      (match ScalarKind(TagOf(e.value))
       case Some(k) => Some(NewField(e.key, k))
       case None => None)
  }

  /** A pair yields a field exactly when it is a supported scalar or a
      supported homogeneous array; nested tables yield none. */
  lemma FieldOfRule(e: Entry)
    requires e.value.Array? ==> |e.value.items| > 0
    ensures FieldOf(e).Some? ==> FieldOf(e).value.name == Cvar(e.key)
    ensures FieldOf(e).Some? <==>
      (e.value.Integer? || e.value.Float? || e.value.Boolean? || e.value.String? ||
       (e.value.Array? && ArrayKind(e.value.items).Some?))
    ensures FieldOf(e).Some? ==> FieldOf(e).value.kind != UntypedArray
    ensures e.value.Table? || e.value.Other? ==> FieldOf(e).None?
  {
    if e.value.Array? {
      ArrayKindRule(e.value.items);
    }
  }

  /** The fields a sequence of pairs adds, in document order. */
  function FieldsOf(es: seq<Entry>): seq<Field>
    requires Loadable(es)
  {
    if es == [] then []
    else
      var last := es[|es| - 1];
      assert EntryLoadable(last);
      FieldsOf(es[..|es| - 1]) + (match FieldOf(last) case Some(f) => [f] case None => [])
  }

  /** The keys of the nested tables among the pairs, in document order. */
  function TableKeys(es: seq<Entry>): seq<string>
  {
    if es == [] then []
    else
      TableKeys(es[..|es| - 1]) + (if es[|es| - 1].value.Table? then [es[|es| - 1].key] else [])
  }

  /** How many levels of nested tables the pairs hold. */
  function Height(es: seq<Entry>): nat
  {
    if es == [] then 0
    else
      var h, e := Height(es[..|es| - 1]), EntryHeight(es[|es| - 1]);
      if h < e then e else h
  }

  function EntryHeight(e: Entry): nat
  {
    match e.value
    case Table(sub) => 1 + Height(sub)
    case _ => 0
  }

  // ----- what tabler appends -----

  /** `parent.fields.emplace_back(f)`. */
  function AddField(A: Arena, p: nat, f: Field): Arena
    requires p < |A|
  {
    A[p := A[p].(fields := A[p].fields + [f])]
  }

  /** A nested table at depth `d` named by the raw key: appended to the arena
      and to the parent's children. */
  function OpenTable(A: Arena, p: nat, d: nat, key: string): Arena
    requires p < |A|
  {
    var A1 := A + [Table.Table([], [], Some(p), d, key)];
    A1[p := A1[p].(children := A1[p].children + [|A|])]
  }

  lemma AddFieldWellFormed(A: Arena, p: nat, f: Field)
    requires WellFormed(A) && p < |A|
    ensures WellFormed(AddField(A, p, f))
  {
    var r := AddField(A, p, f);
    forall i | 0 <= i < |r| ensures ParentOk(r, i) && ChildrenOk(r, i) {
      assert ParentOk(A, i) && ChildrenOk(A, i);
      if i > 0 {
        assert ParentOk(A, i);
      }
    }
  }

  lemma OpenTableWellFormed(A: Arena, p: nat, d: nat, key: string)
    requires WellFormed(A) && p < |A| && d == A[p].depth + 1
    ensures WellFormed(OpenTable(A, p, d, key))
  {
    var r := OpenTable(A, p, d, key);
    var n := |A|;
    assert r[p].children == A[p].children + [n];
    forall i | 0 <= i < |r| ensures ParentOk(r, i) {
      if 0 < i < n {
        assert ParentOk(A, i);
        var q := A[i].parent.value;
        assert i in r[q].children;
      } else if i == n {
        assert n in r[p].children;
      }
    }
    forall i | 0 <= i < |r| ensures ChildrenOk(r, i) {
      if i < n {
        assert ChildrenOk(A, i);
        if i == p {
          forall k | 0 <= k < |r[p].children| - 1 ensures r[p].children[k] < n {
          }
        }
      }
    }
  }

  /** What `tabler(p, es)` leaves in the arena when started with `c_depth == d`. */
  ghost function BuildEntries(A: Arena, p: nat, d: nat, es: seq<Entry>): (r: Arena)
    requires WellFormed(A) && p < |A| && d == A[p].depth + 1 && Loadable(es)
    ensures WellFormed(r) && |A| <= |r|
    ensures forall i :: 0 <= i < |A| ==> r[i].depth == A[i].depth
    decreases es
  {
    if es == [] then A
    else
      var R := BuildEntries(A, p, d, es[..|es| - 1]);
      assert EntryLoadable(es[|es| - 1]);
      BuildEntry(R, p, d, es[|es| - 1])
  }

  /** What one key/value pair makes `tabler` do. */
  ghost function BuildEntry(A: Arena, p: nat, d: nat, e: Entry): (r: Arena)
    requires WellFormed(A) && p < |A| && d == A[p].depth + 1 && EntryLoadable(e)
    ensures WellFormed(r) && |A| <= |r|
    ensures forall i :: 0 <= i < |A| ==> r[i].depth == A[i].depth
    decreases e
  {
    match e.value
    case Table(sub) =>
      var A1 := OpenTable(A, p, d, e.key);
      OpenTableWellFormed(A, p, d, e.key);
      BuildEntries(A1, |A|, d + 1, sub)
    case _ =>
      match FieldOf(e)
      case Some(f) =>
        AddFieldWellFormed(A, p, f);
        AddField(A, p, f)
      case None => A
  }

  /** `r` is `A` with tables appended and only table `p` of the old ones
      changed, and then only in its fields and children, which only grew:
      the fields by `fs`, the children by tables named `keys`, and every
      appended table lies `d` to `d + h - 1` levels deep. */
  ghost predicate Grows(A: Arena, r: Arena, p: nat, d: nat, fs: seq<Field>, keys: seq<string>, h: nat)
    requires p < |A| <= |r|
  {
    && (forall i :: 0 <= i < |A| && i != p ==> r[i] == A[i])
    && r[p].name == A[p].name && r[p].depth == A[p].depth && r[p].parent == A[p].parent
    && r[p].fields == A[p].fields + fs
    && |r[p].children| == |A[p].children| + |keys|
    && r[p].children[..|A[p].children|] == A[p].children
    && (forall k :: |A[p].children| <= k < |r[p].children| ==>
          r[p].children[k] < |r| && r[r[p].children[k]].name == keys[k - |A[p].children|])
    && (forall i :: |A| <= i < |r| ==> d <= r[i].depth < d + h)
  }

  /** `tabler(p, es)` appends the fields of `es` to table `p` in document order,
      appends one child per nested table in document order, named by its raw
      key, gives every new table a depth one more than its parent's (within
      `Height(es)` levels), and leaves every other existing table alone. */
  lemma {:induction false} BuildEntriesGrows(A: Arena, p: nat, d: nat, es: seq<Entry>)
    requires WellFormed(A) && p < |A| && d == A[p].depth + 1 && Loadable(es)
    ensures Grows(A, BuildEntries(A, p, d, es), p, d, FieldsOf(es), TableKeys(es), Height(es))
    decreases es
  {
    if es != [] {
      var pre, e := es[..|es| - 1], es[|es| - 1];
      assert Loadable(pre) && EntryLoadable(e);
      var R := BuildEntries(A, p, d, pre);
      BuildEntriesGrows(A, p, d, pre);
      BuildEntryGrows(R, p, d, e);
      assert FieldsOf(es) == FieldsOf(pre) + FieldsOf([e]) by {
        assert [e][..0] == [];
      }
      assert TableKeys(es) == TableKeys(pre) + TableKeys([e]) by {
        assert [e][..0] == [];
      }
      GrowsTwice(A, R, BuildEntry(R, p, d, e), p, d, FieldsOf(pre), TableKeys(pre), Height(pre),
        FieldsOf([e]), TableKeys([e]), EntryHeight(e));
    }
  }

  /** Growing twice is growing once by both increments. */
  lemma GrowsTwice(A: Arena, R: Arena, r: Arena, p: nat, d: nat,
                   fs1: seq<Field>, keys1: seq<string>, h1: nat,
                   fs2: seq<Field>, keys2: seq<string>, h2: nat)
    requires p < |A| <= |R| <= |r|
    requires Grows(A, R, p, d, fs1, keys1, h1) && Grows(R, r, p, d, fs2, keys2, h2)
    ensures Grows(A, r, p, d, fs1 + fs2, keys1 + keys2, if h1 < h2 then h2 else h1)
  {
    var n := |A[p].children|;
    var m := |R[p].children|;
    assert r[p].children[..n] == A[p].children by {
      assert r[p].children[..m] == R[p].children;
      assert R[p].children[..n] == A[p].children;
    }
    forall k | n <= k < |r[p].children|
      ensures r[p].children[k] < |r| && r[r[p].children[k]].name == (keys1 + keys2)[k - n]
    {
      if k < m {
        assert r[p].children[k] == R[p].children[k] by {
          assert r[p].children[..m] == R[p].children;
        }
        var c := R[p].children[k];
        assert c < |R|;
        assert R[c].name == keys1[k - n];
        if c != p {
          assert r[c] == R[c];
        }
      }
    }
  }

  lemma {:induction false} BuildEntryGrows(A: Arena, p: nat, d: nat, e: Entry)
    requires WellFormed(A) && p < |A| && d == A[p].depth + 1 && EntryLoadable(e)
    ensures Grows(A, BuildEntry(A, p, d, e), p, d, FieldsOf([e]), TableKeys([e]), EntryHeight(e))
    decreases e
  {
    assert [e][..0] == [];
    match e.value
    case Table(sub) =>
      var A1 := OpenTable(A, p, d, e.key);
      OpenTableWellFormed(A, p, d, e.key);
      BuildEntriesGrows(A1, |A|, d + 1, sub);
      var r := BuildEntries(A1, |A|, d + 1, sub);
      assert r[p] == A1[p];
      assert r[|A|].name == e.key && r[|A|].depth == d;
    case _ =>
  }

  // ----- what every table holds -----

  /** Table `i` holds what `tabler` makes of the pairs `es`: their fields in
      document order, and one child per nested table in document order, named
      by its key and holding in turn what `tabler` makes of that table. */
  ghost predicate Mirrors(A: Arena, i: nat, es: seq<Entry>)
    decreases es, 1
  {
    i < |A| && Loadable(es) && A[i].fields == FieldsOf(es) && NestedMirror(A, A[i].children, es)
  }

  /** `cs` are the tables made of the nested tables of `es`, in document order. */
  ghost predicate NestedMirror(A: Arena, cs: seq<nat>, es: seq<Entry>)
    decreases es, 0
  {
    if es == [] then cs == []
    else
      match es[|es| - 1].value
      case Table(sub) =>
        && |cs| > 0 && cs[|cs| - 1] < |A|
        && A[cs[|cs| - 1]].name == es[|es| - 1].key
        && Mirrors(A, cs[|cs| - 1], sub)
        && NestedMirror(A, cs[..|cs| - 1], es[..|es| - 1])
      case _ => NestedMirror(A, cs, es[..|es| - 1])
  }

  /** What a table holds depends only on it and the tables below it. */
  lemma {:induction false} MirrorsFrame(R: Arena, r: Arena, lo: nat, i: nat, es: seq<Entry>)
    requires WellFormed(R) && lo <= i
    requires |R| <= |r| && forall j :: lo <= j < |R| ==> r[j] == R[j]
    requires Mirrors(R, i, es)
    ensures Mirrors(r, i, es)
    decreases es, 1
  {
    assert ChildrenOk(R, i);
    NestedFrame(R, r, lo, R[i].children, es);
  }

  lemma {:induction false} NestedFrame(R: Arena, r: Arena, lo: nat, cs: seq<nat>, es: seq<Entry>)
    requires WellFormed(R)
    requires |R| <= |r| && forall j :: lo <= j < |R| ==> r[j] == R[j]
    requires forall k :: 0 <= k < |cs| ==> lo <= cs[k]
    requires NestedMirror(R, cs, es)
    ensures NestedMirror(r, cs, es)
    decreases es, 0
  {
    if es != [] {
      match es[|es| - 1].value
      case Table(sub) =>
        MirrorsFrame(R, r, lo, cs[|cs| - 1], sub);
        NestedFrame(R, r, lo, cs[..|cs| - 1], es[..|es| - 1]);
      case _ =>
        NestedFrame(R, r, lo, cs, es[..|es| - 1]);
    }
  }

  /** `tabler(p, es)` gives `p` one new child per nested table of `es`, in
      document order, and each new child holds what `tabler` made of its own
      table: its fields and, recursively, its children. */
  lemma {:induction false} BuildEntriesMirror(A: Arena, p: nat, d: nat, es: seq<Entry>)
    requires WellFormed(A) && p < |A| && d == A[p].depth + 1 && Loadable(es)
    ensures var r := BuildEntries(A, p, d, es);
      |A[p].children| <= |r[p].children| && NestedMirror(r, r[p].children[|A[p].children|..], es)
    decreases es
  {
    var r := BuildEntries(A, p, d, es);
    var m := |A[p].children|;
    if es == [] {
      assert r[p].children[m..] == [];
    } else {
      var pre, e := es[..|es| - 1], es[|es| - 1];
      assert Loadable(pre) && EntryLoadable(e);
      var R := BuildEntries(A, p, d, pre);
      assert r == BuildEntry(R, p, d, e);
      BuildEntriesMirror(A, p, d, pre);
      BuildEntryMirror(R, p, d, e);
      BuildEntryFrame(R, p, d, e);
      assert es == pre + [e];
      MirrorStep(R, r, p, m, pre, e);
    }
  }

  /** The step of `BuildEntriesMirror`: `r` is `R` after one more pair `e`. */
  lemma MirrorStep(R: Arena, r: Arena, p: nat, m: nat, pre: seq<Entry>, e: Entry)
    requires WellFormed(R) && p < |R| && m <= |R[p].children|
    requires NestedMirror(R, R[p].children[m..], pre)
    requires |R| <= |r| && forall i :: 0 <= i < |R| && i != p ==> r[i] == R[i]
    requires e.value.Table? ==>
      && r[p].children == R[p].children + [|R|] && |R| < |r|
      && r[|R|].name == e.key && Mirrors(r, |R|, e.value.entries)
    requires !e.value.Table? ==> r[p].children == R[p].children
    ensures m <= |r[p].children| && NestedMirror(r, r[p].children[m..], pre + [e])
  {
    assert ChildrenOk(R, p);
    var old_cs := R[p].children[m..];
    NestedFrame(R, r, p + 1, old_cs, pre);
    var c := if e.value.Table? then [|R|] else [];
    assert r[p].children == R[p].children + c;
    assert r[p].children[m..] == old_cs + c;
    NestedMirrorSnoc(r, old_cs, pre, c, e);
  }

  /** One pair changes no table but `p` among those that exist. */
  lemma BuildEntryFrame(A: Arena, p: nat, d: nat, e: Entry)
    requires WellFormed(A) && p < |A| && d == A[p].depth + 1 && EntryLoadable(e)
    ensures var r := BuildEntry(A, p, d, e);
      |A| <= |r| && forall i :: 0 <= i < |A| && i != p ==> r[i] == A[i]
  {
    BuildEntryGrows(A, p, d, e);
  }

  /** Appending a pair, and the child it makes if it is a nested table. */
  lemma NestedMirrorSnoc(r: Arena, cs: seq<nat>, es: seq<Entry>, c: seq<nat>, e: Entry)
    requires NestedMirror(r, cs, es)
    requires e.value.Table? ==> |c| == 1 && c[0] < |r| && r[c[0]].name == e.key && Mirrors(r, c[0], e.value.entries)
    requires !e.value.Table? ==> c == []
    ensures NestedMirror(r, cs + c, es + [e])
  {
    var ws, fs := es + [e], cs + c;
    assert ws[..|ws| - 1] == es && ws[|ws| - 1] == e;
    if e.value.Table? {
      assert fs[..|fs| - 1] == cs && fs[|fs| - 1] == c[0];
    } else {
      assert fs == cs;
    }
  }

  /** One pair: a nested table becomes a new last child holding what `tabler`
      made of it; anything else leaves the children alone. */
  lemma {:induction false} BuildEntryMirror(A: Arena, p: nat, d: nat, e: Entry)
    requires WellFormed(A) && p < |A| && d == A[p].depth + 1 && EntryLoadable(e)
    ensures var r := BuildEntry(A, p, d, e);
      && (e.value.Table? ==>
            && r[p].children == A[p].children + [|A|] && |A| < |r|
            && r[|A|].name == e.key && Mirrors(r, |A|, e.value.entries))
      && (!e.value.Table? ==> r[p].children == A[p].children)
    decreases e, 1
  {
    if e.value.Table? {
      TableEntryMirror(A, p, d, e);
    } else {
      var r := BuildEntry(A, p, d, e);
      BuildEntryGrows(A, p, d, e);
      assert [e][..0] == [];
      assert TableKeys([e]) == [];
      assert r[p].children == r[p].children[..|A[p].children|];
    }
  }

  /** The nested-table case of `BuildEntryMirror`. */
  lemma {:induction false} TableEntryMirror(A: Arena, p: nat, d: nat, e: Entry)
    requires WellFormed(A) && p < |A| && d == A[p].depth + 1 && EntryLoadable(e)
    requires e.value.Table?
    ensures var r := BuildEntry(A, p, d, e);
      && r[p].children == A[p].children + [|A|] && |A| < |r|
      && r[|A|].name == e.key && Mirrors(r, |A|, e.value.entries)
    decreases e, 0
  {
    var r := BuildEntry(A, p, d, e);
    var sub := e.value.entries;
    var A1 := OpenTable(A, p, d, e.key);
    OpenTableWellFormed(A, p, d, e.key);
    assert r == BuildEntries(A1, |A|, d + 1, sub);
    BuildEntriesGrows(A1, |A|, d + 1, sub);
    BuildEntriesMirror(A1, |A|, d + 1, sub);
    assert r[p] == A1[p];
    assert A1[|A|].fields == [] && A1[|A|].children == [];
    assert r[|A|].children[0..] == r[|A|].children;
  }

  /** What `parser` builds from the document `doc` for the root type name
      `name`: a tree whose root is named `name` at depth 0 and holds what
      `tabler` makes of `doc`, with every depth within the `uint8_t` range. */
  lemma BuildFromRoot(name: string, doc: seq<Entry>)
    requires Loadable(doc) && Height(doc) <= 255
    ensures var r := BuildEntries(RootArena(name), 0, 1, doc);
      && WellFormed(r) && r[0].name == name && r[0].depth == 0
      && r[0].fields == FieldsOf(doc)
      && |r[0].children| == |TableKeys(doc)|
      && (forall k :: 0 <= k < |r[0].children| ==>
            r[0].children[k] < |r| && r[r[0].children[k]].name == TableKeys(doc)[k])
      && (forall i :: 0 <= i < |r| ==> r[i].depth <= 255)
      && Mirrors(r, 0, doc)
  {
    var A := RootArena(name);
    var r := BuildEntries(A, 0, 1, doc);
    BuildEntriesGrows(A, 0, 1, doc);
    BuildEntriesMirror(A, 0, 1, doc);
    assert r[0].children[0..] == r[0].children;
    forall i | 0 <= i < |r| ensures r[i].depth <= 255 {
      if i > 0 {
        assert 1 <= r[i].depth < 1 + Height(doc);
      }
    }
  }

  // ----- traversal -----

  /** The tables of the subtree at `t` in pre-order: `t`, then the subtree of
      each child in turn. Every generation pass visits tables in this order. */
  function PreOrder(A: Arena, t: nat): (r: seq<nat>)
    requires WellFormed(A) && t < |A|
    ensures |r| > 0 && r[0] == t
    ensures forall k :: 0 <= k < |r| ==> t <= r[k] < |A|
    decreases |A| - t, 1
  {
    assert ChildrenOk(A, t);
    [t] + PreOrderSeq(A, t, A[t].children)
  }

  /** The subtrees of the tables `cs` (children of `t`), one after another. */
  function PreOrderSeq(A: Arena, t: nat, cs: seq<nat>): (r: seq<nat>)
    requires WellFormed(A) && t < |A|
    requires forall k :: 0 <= k < |cs| ==> t < cs[k] < |A|
    ensures forall k :: 0 <= k < |r| ==> t < r[k] < |A|
    decreases |A| - t, 0, |cs|
  {
    if cs == [] then []
    else PreOrderSeq(A, t, cs[..|cs| - 1]) + PreOrder(A, cs[|cs| - 1])
  }

  /** Position `j` of the traversal `P` holds a table whose parent sits at an
      earlier position. */
  ghost predicate ParentEarlier(A: Arena, P: seq<nat>, j: nat)
    requires j < |P| && P[j] < |A|
  {
    exists k :: 0 <= k < j && A[P[j]].parent == Some(P[k])
  }

  /** In pre-order every table but the first comes after its parent. */
  lemma {:induction false} PreOrderParentFirst(A: Arena, t: nat)
    requires WellFormed(A) && t < |A|
    ensures forall j :: 0 < j < |PreOrder(A, t)| ==> ParentEarlier(A, PreOrder(A, t), j)
    decreases |A| - t, 1
  {
    var P := PreOrder(A, t);
    assert ChildrenOk(A, t);
    var cs := A[t].children;
    var S := PreOrderSeq(A, t, cs);
    PreOrderSeqParentFirst(A, t, cs);
    forall j | 0 < j < |P| ensures ParentEarlier(A, P, j) {
      assert P[j] == S[j - 1];
      if A[P[j]].parent == Some(t) {
        assert P[0] == t;
      } else {
        assert ParentEarlier(A, S, j - 1);
        var k :| 0 <= k < j - 1 && A[S[j - 1]].parent == Some(S[k]);
        assert P[k + 1] == S[k];
      }
    }
  }

  /** In the subtrees of children of `t`, each table's parent is `t` or comes earlier. */
  lemma {:induction false} PreOrderSeqParentFirst(A: Arena, t: nat, cs: seq<nat>)
    requires WellFormed(A) && t < |A|
    requires forall k :: 0 <= k < |cs| ==> t < cs[k] < |A| && A[cs[k]].parent == Some(t)
    ensures forall j :: 0 <= j < |PreOrderSeq(A, t, cs)| ==>
      A[PreOrderSeq(A, t, cs)[j]].parent == Some(t) || ParentEarlier(A, PreOrderSeq(A, t, cs), j)
    decreases |A| - t, 0, |cs|
  {
    if cs != [] {
      var pre, c := cs[..|cs| - 1], cs[|cs| - 1];
      var S1, P := PreOrderSeq(A, t, pre), PreOrder(A, c);
      var S := PreOrderSeq(A, t, cs);
      assert S == S1 + P;
      PreOrderSeqParentFirst(A, t, pre);
      PreOrderParentFirst(A, c);
      forall j | 0 <= j < |S|
        ensures A[S[j]].parent == Some(t) || ParentEarlier(A, S, j)
      {
        if j < |S1| {
          if A[S1[j]].parent != Some(t) {
            assert ParentEarlier(A, S1, j);
            var k :| 0 <= k < j && A[S1[j]].parent == Some(S1[k]);
            assert S[k] == S1[k];
          }
        } else if j > |S1| {
          var j' := j - |S1|;
          assert S[j] == P[j'];
          assert ParentEarlier(A, P, j');
          var k :| 0 <= k < j' && A[P[j']].parent == Some(P[k]);
          assert S[|S1| + k] == P[k];
        }
      }
    }
  }

  // ----- subtrees -----

  /** Table `u` is `t` or lies below it: walking up the parents from `u`
      reaches `t`. */
  ghost predicate Under(A: Arena, u: nat, t: nat)
    requires WellFormed(A) && u < |A|
    decreases u
  {
    assert ParentOk(A, u);
    u == t || (A[u].parent.Some? && Under(A, A[u].parent.value, t))
  }

  lemma {:induction false} UnderAbove(A: Arena, u: nat, t: nat)
    requires WellFormed(A) && u < |A| && Under(A, u, t)
    ensures t <= u
    decreases u
  {
    assert ParentOk(A, u);
    if u != t {
      UnderAbove(A, A[u].parent.value, t);
    }
  }

  lemma {:induction false} UnderTrans(A: Arena, u: nat, v: nat, t: nat)
    requires WellFormed(A) && u < |A| && v < |A| && Under(A, u, v) && Under(A, v, t)
    ensures Under(A, u, t)
    decreases u
  {
    assert ParentOk(A, u);
    if u != v {
      UnderTrans(A, A[u].parent.value, v, t);
    }
  }

  /** The tables above `u` form one chain: of two of them, one is above the other. */
  lemma {:induction false} UnderLinear(A: Arena, u: nat, a: nat, b: nat)
    requires WellFormed(A) && u < |A| && Under(A, u, a) && Under(A, u, b)
    ensures a < |A| && b < |A| && (Under(A, a, b) || Under(A, b, a))
    decreases u
  {
    assert ParentOk(A, u);
    UnderAbove(A, u, a);
    UnderAbove(A, u, b);
    if u != a && u != b {
      UnderLinear(A, A[u].parent.value, a, b);
    }
  }

  /** No table lies below two different children of one table. */
  lemma SiblingsDisjoint(A: Arena, t: nat, c1: nat, c2: nat, x: nat)
    requires WellFormed(A) && c1 < |A| && c2 < |A| && x < |A| && c1 != c2
    requires A[c1].parent == Some(t) && A[c2].parent == Some(t)
    ensures !(Under(A, x, c1) && Under(A, x, c2))
  {
    if Under(A, x, c1) && Under(A, x, c2) {
      UnderLinear(A, x, c1, c2);
      assert ParentOk(A, c1) && ParentOk(A, c2);
      if Under(A, c1, c2) {
        UnderAbove(A, t, c2);
      } else {
        UnderAbove(A, t, c1);
      }
      assert false;
    }
  }

  /** Every table is below the root. */
  lemma {:induction false} UnderRoot(A: Arena, u: nat)
    requires WellFormed(A) && u < |A|
    ensures Under(A, u, 0)
    decreases u
  {
    assert ParentOk(A, u);
    if u != 0 {
      UnderRoot(A, A[u].parent.value);
    }
  }

  /** A table strictly below `t` is below one of the children of `t`. */
  lemma {:induction false} UnderChild(A: Arena, u: nat, t: nat)
    requires WellFormed(A) && u < |A| && t < |A| && Under(A, u, t) && u != t
    ensures exists c :: c in A[t].children && c < |A| && Under(A, u, c)
    decreases u
  {
    assert ParentOk(A, u);
    var p := A[u].parent.value;
    UnderAbove(A, u, t);
    if p == t {
      assert u in A[t].children && Under(A, u, u);
    } else {
      UnderChild(A, p, t);
      var c :| c in A[t].children && c < |A| && Under(A, p, c);
      assert Under(A, u, c);
    }
  }

  /** The pre-order of `t` lists only tables below `t`. */
  lemma {:induction false} PreOrderUnder(A: Arena, t: nat)
    requires WellFormed(A) && t < |A|
    ensures forall k :: 0 <= k < |PreOrder(A, t)| ==> Under(A, PreOrder(A, t)[k], t)
    decreases |A| - t, 1
  {
    assert ChildrenOk(A, t);
    var cs := A[t].children;
    var P, S := PreOrder(A, t), PreOrderSeq(A, t, cs);
    PreOrderSeqUnder(A, t, cs);
    forall k | 0 <= k < |P| ensures Under(A, P[k], t) {
      if k > 0 {
        assert P[k] == S[k - 1];
        var j :| 0 <= j < |cs| && Under(A, S[k - 1], cs[j]);
        assert ParentOk(A, cs[j]);
        UnderTrans(A, P[k], cs[j], t);
      }
    }
  }

  lemma {:induction false} PreOrderSeqUnder(A: Arena, t: nat, cs: seq<nat>)
    requires WellFormed(A) && t < |A|
    requires forall k :: 0 <= k < |cs| ==> t < cs[k] < |A|
    ensures forall k :: 0 <= k < |PreOrderSeq(A, t, cs)| ==>
      exists j :: 0 <= j < |cs| && Under(A, PreOrderSeq(A, t, cs)[k], cs[j])
    decreases |A| - t, 0, |cs|
  {
    if cs != [] {
      var pre, c := cs[..|cs| - 1], cs[|cs| - 1];
      var S1, P := PreOrderSeq(A, t, pre), PreOrder(A, c);
      var S := PreOrderSeq(A, t, cs);
      assert S == S1 + P;
      PreOrderSeqUnder(A, t, pre);
      PreOrderUnder(A, c);
      forall k | 0 <= k < |S| ensures exists j :: 0 <= j < |cs| && Under(A, S[k], cs[j]) {
        if k < |S1| {
          var j :| 0 <= j < |pre| && Under(A, S1[k], pre[j]);
          assert cs[j] == pre[j];
        } else {
          assert S[k] == P[k - |S1|];
          assert Under(A, S[k], cs[|cs| - 1]);
        }
      }
    } else {
      assert PreOrderSeq(A, t, cs) == [];
    }
  }

  /** The pre-order of `t` lists no table twice. */
  lemma {:induction false} PreOrderDistinct(A: Arena, t: nat)
    requires WellFormed(A) && t < |A|
    ensures forall j, k :: 0 <= j < k < |PreOrder(A, t)| ==> PreOrder(A, t)[j] != PreOrder(A, t)[k]
    decreases |A| - t, 1
  {
    assert ChildrenOk(A, t);
    var cs := A[t].children;
    var P, S := PreOrder(A, t), PreOrderSeq(A, t, cs);
    PreOrderSeqDistinct(A, t, cs);
    forall j, k | 0 <= j < k < |P| ensures P[j] != P[k] {
      assert P[k] == S[k - 1];
      if j > 0 {
        assert P[j] == S[j - 1];
      }
    }
  }

  lemma {:induction false} PreOrderSeqDistinct(A: Arena, t: nat, cs: seq<nat>)
    requires WellFormed(A) && t < |A|
    requires forall k :: 0 <= k < |cs| ==> t < cs[k] < |A| && A[cs[k]].parent == Some(t)
    requires forall k, l :: 0 <= k < l < |cs| ==> cs[k] < cs[l]
    ensures forall j, k :: 0 <= j < k < |PreOrderSeq(A, t, cs)| ==>
      PreOrderSeq(A, t, cs)[j] != PreOrderSeq(A, t, cs)[k]
    decreases |A| - t, 0, |cs|
  {
    if cs != [] {
      var pre, c := cs[..|cs| - 1], cs[|cs| - 1];
      var S1, P := PreOrderSeq(A, t, pre), PreOrder(A, c);
      var S := PreOrderSeq(A, t, cs);
      assert S == S1 + P;
      PreOrderSeqDistinct(A, t, pre);
      PreOrderDistinct(A, c);
      PreOrderSeqUnder(A, t, pre);
      PreOrderUnder(A, c);
      forall j, k | 0 <= j < k < |S| ensures S[j] != S[k] {
        if j < |S1| <= k {
          var x := S1[j];
          var i :| 0 <= i < |pre| && Under(A, x, pre[i]);
          assert S[k] == P[k - |S1|];
          SiblingsDisjoint(A, t, pre[i], c, x);
        } else if |S1| <= j {
          assert S[j] == P[j - |S1|] && S[k] == P[k - |S1|];
        }
      }
    }
  }

  /** Every table below `t` is in the pre-order of `t`. */
  lemma {:induction false} PreOrderCovers(A: Arena, t: nat, u: nat)
    requires WellFormed(A) && t < |A| && u < |A| && Under(A, u, t)
    ensures u in PreOrder(A, t)
    decreases |A| - t
  {
    if u != t {
      assert ChildrenOk(A, t);
      UnderChild(A, u, t);
      var c :| c in A[t].children && c < |A| && Under(A, u, c);
      PreOrderCovers(A, c, u);
      InPreOrderSeq(A, t, A[t].children, c, u);
    }
  }

  /** The pre-order of a child is part of the pre-order of its siblings. */
  lemma {:induction false} InPreOrderSeq(A: Arena, t: nat, cs: seq<nat>, c: nat, u: nat)
    requires WellFormed(A) && t < |A|
    requires forall k :: 0 <= k < |cs| ==> t < cs[k] < |A|
    requires c in cs && u in PreOrder(A, c)
    ensures u in PreOrderSeq(A, t, cs)
    decreases |cs|
  {
    if cs[|cs| - 1] != c {
      InPreOrderSeq(A, t, cs[..|cs| - 1], c, u);
    }
  }

  /** Starting at the root, the pre-order lists every table of the arena
      exactly once: one handle per table, one read, print and free per field. */
  lemma PreOrderListsEveryTable(A: Arena)
    requires WellFormed(A)
    ensures forall u :: 0 <= u < |A| ==> u in PreOrder(A, 0)
    ensures forall j, k :: 0 <= j < k < |PreOrder(A, 0)| ==> PreOrder(A, 0)[j] != PreOrder(A, 0)[k]
  {
    PreOrderDistinct(A, 0);
    forall u | 0 <= u < |A| ensures u in PreOrder(A, 0) {
      UnderRoot(A, u);
      PreOrderCovers(A, 0, u);
    }
  }
}
