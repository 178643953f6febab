/** Identifier sanitisation (`cvar`, `tvar`) and the naming of the root
    record type from the example file's path. */
module Names {

  datatype Option<T> = None | Some(value: T)

  /** What `cvar` writes for one character. */
  function CvarChar(c: char): char { if c == '-' then '_' else c }

  /** What `tvar` writes for one character. */
  function TvarChar(c: char): char { if c == '_' then '-' else c }

  /** `cvar`: a copy of `s` with every '-' replaced by '_'. */
  function Cvar(s: string): (r: string)
    ensures |r| == |s|
    ensures '-' !in r
    ensures forall i :: 0 <= i < |s| && s[i] == '-' ==> r[i] == '_'
    ensures forall i :: 0 <= i < |s| && s[i] != '-' ==> r[i] == s[i]
  {
    if s == [] then [] else [CvarChar(s[0])] + Cvar(s[1..])
  }

  /** `tvar`: a copy of `s` with every '_' replaced by '-'. */
  function Tvar(s: string): (r: string)
    ensures |r| == |s|
    ensures '_' !in r
    ensures forall i :: 0 <= i < |s| && s[i] == '_' ==> r[i] == '-'
    ensures forall i :: 0 <= i < |s| && s[i] != '_' ==> r[i] == s[i]
  {
    if s == [] then [] else [TvarChar(s[0])] + Tvar(s[1..])
  }

  /** `cvar` works character by character, so it distributes over concatenation. */
  lemma {:induction false} CvarAppend(a: string, b: string)
    ensures Cvar(a + b) == Cvar(a) + Cvar(b)
  {
    if a != [] {
      assert (a + b)[1..] == a[1..] + b;
      CvarAppend(a[1..], b);
    }
  }

  /** `tvar` distributes over concatenation as well. */
  lemma {:induction false} TvarAppend(a: string, b: string)
    ensures Tvar(a + b) == Tvar(a) + Tvar(b)
  {
    if a != [] {
      assert (a + b)[1..] == a[1..] + b;
      TvarAppend(a[1..], b);
    }
  }

  /** A string without '-' is left as it is by `cvar`. */
  lemma {:induction false} CvarNoDash(s: string)
    requires '-' !in s
    ensures Cvar(s) == s
  {
    if s != [] {
      assert s == [s[0]] + s[1..];
      CvarNoDash(s[1..]);
    }
  }

  /** `cvar` is idempotent. */
  lemma CvarIdempotent(s: string)
    ensures Cvar(Cvar(s)) == Cvar(s)
  {
    CvarNoDash(Cvar(s));
  }

  /** `cvar` is not injective: a key with '-' and the same key with '_' collide. */
  lemma CvarNotInjective()
    ensures "a-b" != "a_b" && Cvar("a-b") == Cvar("a_b")
  {
    assert "a-b"[1] != "a_b"[1];
    assert Cvar("a-b") == "a_b";
    CvarNoDash("a_b");
  }

  /** `tvar` undoes nothing that `cvar` can see: sanitising after `tvar` is sanitising. */
  lemma CvarOfTvar(s: string)
    ensures Cvar(Tvar(s)) == Cvar(s)
  {
    var l, r := Cvar(Tvar(s)), Cvar(s);
    assert |l| == |r|;
    forall i | 0 <= i < |s| ensures l[i] == r[i] {
    }
  }

  /** Symmetrically, `tvar` after `cvar` is `tvar`. */
  lemma TvarOfCvar(s: string)
    ensures Tvar(Cvar(s)) == Tvar(s)
  {
    var l, r := Tvar(Cvar(s)), Tvar(s);
    assert |l| == |r|;
    forall i | 0 <= i < |s| ensures l[i] == r[i] {
    }
  }

  /** The key the generated reader looks a field up by, `tvar(cvar(key))`, is
      the document's key exactly when that key holds no '_'. */
  lemma LookupKeyRecoversKey(key: string)
    ensures Tvar(Cvar(key)) == key <==> '_' !in key
  {
    TvarOfCvar(key);
    if '_' in key {
      var i :| 0 <= i < |key| && key[i] == '_';
      assert Tvar(key)[i] != key[i];
    } else {
      forall i | 0 <= i < |key| ensures Tvar(key)[i] == key[i] {
      }
    }
  }

  // ----- the root type name -----

  /** A path separator as `find_last_of("\\/")` sees one. */
  predicate IsSep(c: char) { c == '/' || c == '\\' }

  /** `find_last_of("\\/")` on `s[..n]`: the last separator, or None for npos. */
  function FindLastSep(s: string, n: nat): (r: Option<nat>)
    requires n <= |s|
    ensures r.Some? ==> r.value < n && IsSep(s[r.value])
    ensures r.Some? ==> forall j :: r.value < j < n ==> !IsSep(s[j])
    ensures r.None? ==> forall j :: 0 <= j < n ==> !IsSep(s[j])
  {
    if n == 0 then None
    else if IsSep(s[n - 1]) then Some(n - 1)
    else FindLastSep(s, n - 1)
  }

  /** Conversely, the last separator before `n` is what `FindLastSep` finds. */
  lemma {:induction false} FindLastSepLast(s: string, n: nat, p: nat)
    requires p < n <= |s| && IsSep(s[p])
    requires forall j :: p < j < n ==> !IsSep(s[j])
    ensures FindLastSep(s, n) == Some(p)
  {
    if p < n - 1 {
      FindLastSepLast(s, n - 1, p);
    }
  }

  /** ".toml" occurs in `s` at index `i`. */
  predicate TomlAt(s: string, i: nat)
  {
    i + 5 <= |s| && s[i..i + 5] == ".toml"
  }

  /** `find(".toml")` on `s`, searching from index `i`: the first occurrence. */
  function FindToml(s: string, i: nat): (r: Option<nat>)
    requires i <= |s|
    ensures r.Some? ==> i <= r.value && TomlAt(s, r.value)
    ensures r.Some? ==> forall j :: i <= j < r.value ==> !TomlAt(s, j)
    ensures r.None? ==> forall j :: i <= j <= |s| ==> !TomlAt(s, j)
    decreases |s| - i
  {
    if i + 5 > |s| then None
    else if s[i..i + 5] == ".toml" then Some(i)
    else FindToml(s, i + 1)
  }

  /** Conversely, the first occurrence at or after `i` is what `FindToml` finds. */
  lemma {:induction false} FindTomlFirst(s: string, i: nat, p: nat)
    requires i <= p && TomlAt(s, p)
    requires forall j :: i <= j < p ==> !TomlAt(s, j)
    ensures FindToml(s, i) == Some(p)
    decreases p - i
  {
    if i < p {
      assert !TomlAt(s, i);
      FindTomlFirst(s, i + 1, p);
    }
  }

  /** The path with its directory removed (everything up to the last separator). */
  function DropDir(path: string): string
  {
    match FindLastSep(path, |path|)
    case Some(p) => path[p + 1..]
    case None => path
  }

  /** The name cut at the first ".toml". */
  function DropExt(name: string): string
  {
    match FindToml(name, 0)
    case Some(p) => name[..p]
    case None => name
  }

  /** The stem of an example file: no directory, nothing from the first ".toml" on. */
  function Stem(path: string): string
  {
    DropExt(DropDir(path))
  }

  /** The cutting `parser` and `write` both do: keep what follows the last
      separator, then what precedes the first ".toml". */
  method StripName(file: string) returns (s: string)
    ensures s == Stem(file)
  {
    s := file;
    var pdir := FindLastSep(file, |file|);
    if pdir.Some? {
      s := s[pdir.value + 1..];
    }
    var pext := FindToml(s, 0);
    if pext.Some? {
      s := s[..pext.value];
    }
  }

  /** The root record type's name: the sanitised stem followed by "_t". */
  function StructName(path: string): string
  {
    Cvar(Stem(path)) + "_t"
  }

  /** `name.substr(0, name.size()-2)`; for a name shorter than 2 the size
      wraps around and `substr` keeps the whole string. */
  function BaseName(name: string): string
  {
    if |name| >= 2 then name[..|name| - 2] else name
  }

  /** The stem holds no path separator. */
  lemma StemHasNoSep(path: string)
    ensures forall j :: 0 <= j < |Stem(path)| ==> !IsSep(Stem(path)[j])
  {
    var d := DropDir(path);
    assert forall j :: 0 <= j < |d| ==> !IsSep(d[j]);
  }

  /** The stem holds no ".toml". */
  lemma StemHasNoToml(path: string)
    ensures forall j :: 0 <= j <= |Stem(path)| ==> !TomlAt(Stem(path), j)
  {
    var d := DropDir(path);
    var st := Stem(path);
    match FindToml(d, 0)
    case None =>
    case Some(p) =>
      forall j | 0 <= j <= |st| ensures !TomlAt(st, j) {
        if TomlAt(st, j) {
          assert st[j..j + 5] == d[j..j + 5];
          assert TomlAt(d, j);
        }
      }
  }

  /** The root type name is the sanitised stem plus "_t", and dropping its last
      two characters, as the header and source writers do, gives back exactly
      the sanitised stem. */
  lemma StructNameBase(path: string)
    ensures StructName(path) == Cvar(Stem(path)) + "_t"
    ensures BaseName(StructName(path)) == Cvar(Stem(path))
    ensures '-' !in StructName(path)
  {
    var n := StructName(path);
    assert n[..|n| - 2] == Cvar(Stem(path));
    assert n[|n| - 2] == '_' && n[|n| - 1] == 't';
  }

  /** A worked instance: the stem of "conf/my-app.toml" is "my-app". */
  lemma StemExample(path: string)
    requires path == "conf/my-app.toml"
    ensures Stem(path) == "my-app"
  {
    assert IsSep(path[4]);
    assert forall j :: 4 < j < |path| ==> !IsSep(path[j]);
    FindLastSepLast(path, |path|, 4);
    var d := path[5..];
    assert d == "my-app.toml";
    assert d[6..11] == ".toml";
    forall j | 0 <= j < 6 ensures !TomlAt(d, j) {
      assert d[j] != '.';
      assert d[j..j + 5][0] == d[j];
    }
    FindTomlFirst(d, 0, 6);
  }

  /** ... and it names the root type "my_app_t". */
  lemma StructNameExample(path: string)
    requires path == "conf/my-app.toml"
    ensures StructName(path) == "my_app_t"
  {
    StemExample(path);
    var stem := Stem(path);
    var c := Cvar(stem);
    assert forall i :: 0 <= i < 6 ==> c[i] == "my_app"[i] by {
      assert stem == "my-app";
    }
    assert c == "my_app";
  }
}
