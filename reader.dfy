/** `Reader`: names the root table after the example file and walks the
    parsed document, appending tables to its arena. */
module Reading {
  import opened Names
  import opened Toml
  import opened Schema

  /** The loop of `tabler` that compares every element's node type with the
      first element's, stopping at the first difference. */
  method ArrayIsMixed(items: seq<Value>) returns (mixed: bool)
    requires |items| > 0
    ensures mixed <==> !Homogeneous(items)
    ensures mixed <==> exists j :: 0 <= j < |items| && TagOf(items[j]) != TagOf(items[0])
  {
    mixed := false;
    var i := 0;
    while i < |items|
      invariant 0 <= i <= |items|
      invariant forall j :: 0 <= j < i ==> TagOf(items[j]) == TagOf(items[0])
    {
      if TagOf(items[i]) != TagOf(items[0]) {
        mixed := true;
        break;
      }
      i := i + 1;
    }
  }

  class Reader {
    /** The `tables` deque; index 0 is the root. */
    var tables: seq<Table>
    /** `c_depth`: the depth given to the next nested table. */
    var cDepth: int

    constructor ()
      ensures tables == []
    {
      tables := [];
      cDepth := 0;
    }

    /** `Reader::parser` minus the parsing itself: `doc` is the document the
        TOML library produced, or None when it reported a parse error. The
        result is the status `parser` returns. */
    method Parser(file: string, doc: Option<seq<Entry>>) returns (status: int)
      requires tables == []
      requires doc.Some? ==> Loadable(doc.value) && Height(doc.value) <= 255
      modifies this
      ensures doc.None? ==> status == 1 && tables == []
      ensures doc.Some? ==> status == 0
      ensures doc.Some? ==> tables == BuildEntries(RootArena(StructName(file)), 0, 1, doc.value)
      ensures doc.Some? ==> WellFormed(tables)
      ensures doc.Some? ==> tables[0].name == StructName(file) && tables[0].depth == 0
      ensures doc.Some? ==> tables[0].fields == FieldsOf(doc.value)
      ensures doc.Some? ==> |tables[0].children| == |TableKeys(doc.value)|
      ensures doc.Some? ==> forall k :: 0 <= k < |tables[0].children| ==>
        tables[0].children[k] < |tables| && tables[tables[0].children[k]].name == TableKeys(doc.value)[k]
      ensures doc.Some? ==> forall i :: 0 <= i < |tables| ==> tables[i].depth <= 255
      ensures doc.Some? ==> Mirrors(tables, 0, doc.value)
    {
      match doc
      case None =>
        return 1;
      case Some(tbl) =>
        var sName := StripName(file);
        cDepth := 0;
        sName := Cvar(sName);
        sName := sName + "_t";
        var t := Table.Table([], [], None, cDepth, sName);
        tables := tables + [t];
        cDepth := 1;
        assert sName == StructName(file);
        assert tables == RootArena(StructName(file));
        Tabler(|tables| - 1, tbl);
        status := 0;
        BuildFromRoot(StructName(file), tbl);
    }

    /** `Reader::tabler`: `for_each` over the pairs of the table `es`, in
        document order. */
    method Tabler(p: nat, es: seq<Entry>)
      requires WellFormed(tables) && p < |tables| && cDepth == tables[p].depth + 1
      requires Loadable(es)
      modifies this
      ensures tables == BuildEntries(old(tables), p, old(cDepth), es)
      ensures cDepth == old(cDepth)
      decreases es, 1
    {
      ghost var d := cDepth;
      for i := 0 to |es|
        invariant cDepth == d
        invariant tables == BuildEntries(old(tables), p, d, es[..i])
      {
        assert es[..i + 1][..i] == es[..i];
        assert EntryLoadable(es[i]);
        Visit(p, es[i]);
      }
      assert es[..|es|] == es;
    }

    /** The lambda `tabler` runs on each pair: a nested table becomes a child
        table (walked recursively), a supported scalar or homogeneous array a
        field, anything else nothing. */
    method Visit(p: nat, e: Entry)
      requires WellFormed(tables) && p < |tables| && cDepth == tables[p].depth + 1
      requires EntryLoadable(e)
      modifies this
      ensures tables == BuildEntry(old(tables), p, old(cDepth), e)
      ensures cDepth == old(cDepth)
      decreases e, 0
    {
      var key := e.key;
      match e.value
      case Table(sub) =>
        var t := Table.Table([], [], Some(p), cDepth, key);
        cDepth := cDepth + 1;
        tables := tables + [t];
        tables := tables[p := tables[p].(children := tables[p].children + [|tables| - 1])];
        OpenTableWellFormed(old(tables), p, old(cDepth), key);
        Tabler(|tables| - 1, sub);
        cDepth := cDepth - 1;
      case Integer =>
        tables := AddField(tables, p, NewField(key, Int));
      case String =>
        tables := AddField(tables, p, NewField(key, Str));
      case Float =>
        tables := AddField(tables, p, NewField(key, Double));
      case Boolean =>
        tables := AddField(tables, p, NewField(key, Bool));
      case Array(items) =>
        var mixed := ArrayIsMixed(items);
        if !mixed {
          match TagOf(items[0])
          case TInteger =>
            tables := AddField(tables, p, NewField(key, ArrayOfInt));
          case TFloat =>
            tables := AddField(tables, p, NewField(key, ArrayOfDouble));
          case TBoolean =>
            tables := AddField(tables, p, NewField(key, ArrayOfBool));
          case TString =>
            tables := AddField(tables, p, NewField(key, ArrayOfString));
          case _ =>
        }
      case Other =>
    }
  }
}
