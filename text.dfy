/** The text `Writer` emits, as pure functions of the schema arena. Each
    function takes the buffer `out` before a step and gives the buffer after
    it, mirroring the `out +=` statements of the header writers (`h_header`,
    `h_struct`, `h_functions`) and of `c_src` with its passes `decl_r`,
    `check_r`, `read_r`, `print_r` and `free_r`. The fixed C boilerplate is a
    `Snippets` record with one named piece per fixed string of the generator;
    `Toml2c` holds the generator's own pieces. */
module Emit {
  import opened Names
  import opened Schema
  import opened Paths

  /** `lib_base_name`. */
  const LibBaseName: string := "t2c"

  /** `lib_base_name` followed by `sep`, or nothing for an empty library name. */
  function LibPrefix(sep: string): string
  {
    if |LibBaseName| > 0 then LibBaseName + sep else ""
  }

  /** The fixed pieces of C text the generator writes around the names it
      derives from the schema, in the order they first appear in its output. */
  datatype Snippets = Snippets(
    headerPrologue: string,
    sTable: string,
    sTypeInt: string,
    sTypeDouble: string,
    sTypeBool: string,
    sTypeString: string,
    sTypeArray: string,
    sTypeArrayOfInt: string,
    sTypeArrayOfDouble: string,
    sTypeArrayOfBool: string,
    sTypeArrayOfString: string,
    externOpen: string,
    externClose: string,
    includeRest: string,
    readLocals: string,
    openFile: string,
    openFailed: string,
    parseFailed: string,
    checkIf: string,
    tableIn: string,
    checkFailed: string,
    locateFailed: string,
    locateEnd: string,
    fieldLocals: string,
    readEnd: string,
    printEnd: string,
    datumIntIn: string,
    datumDoubleIn: string,
    datumBoolIn: string,
    datumStringIn: string,
    arrayIn: string,
    takeInt: string,
    takeDouble: string,
    takeBool: string,
    takeString: string,
    mallocInt: string,
    mallocDouble: string,
    mallocString: string,
    forEachInt: string,
    forEachDouble: string,
    forEachBool: string,
    forEachString: string,
    takeIntAt: string,
    takeDoubleAt: string,
    takeBoolAt: string,
    takeStringAt: string,
    setLen: string,
    printf: string,
    formatInt: string,
    formatDouble: string,
    formatString: string,
    boolWords: string,
    forLen: string,
    forLenEnd: string,
    printfAt: string,
    formatIntAt: string,
    formatDoubleAt: string,
    formatStringAt: string,
    boolWordsAt: string)

  /** The pieces toml2c writes. */
  const Toml2c: Snippets := Snippets(
    headerPrologue := "#pragma once\n#include <stdbool.h>\n#include <stdint.h>\n#include <stdio.h>\n\ntypedef ",
    sTable := "struct {\n",
    sTypeInt := "int64_t ",
    sTypeDouble := "double ",
    sTypeBool := "bool ",
    sTypeString := "char* ",
    sTypeArray := "void** ",
    sTypeArrayOfInt := "int64_t* ",
    sTypeArrayOfDouble := "double* ",
    sTypeArrayOfBool := "bool* ",
    sTypeArrayOfString := "char** ",
    externOpen := "\n#ifdef __cplusplus\nextern \"C\" {\n#endif\nint  ",
    externClose := "\n#ifdef __cplusplus\n}\n#endif",
    includeRest := ".h\"\n#include <stdlib.h>\n#include <toml.h>\n\nint ",
    readLocals := "\n    FILE* fp;\n    toml_table_t* root;\n    char errbuf[200];\n\n    if (*",
    openFile := "\n    /* Open the file. */\n    if (0 == (fp = fopen(file_path, \"r\"))) {\n        fprintf(stderr, \"",
    openFailed := "_read() failed: couldn't open %s\", file_path);\n        return 1;\n    }\n\n    /* Run the file through the parser. */\n    root = toml_parse_file(fp, errbuf, sizeof(errbuf));\n    if (0 == root) {\n        fprintf(stderr, \"",
    parseFailed := "_read() failed: error while parsing %s\", file_path);\n        return 1;\n    }\n    fclose(fp);\n    // Tables \n    toml_table_t ",
    checkIf := "    if (!(",
    tableIn := " = toml_table_in(",
    checkFailed := "\"))) {\n        fprintf(stderr, \"",
    locateFailed := "_read() failed: failed locating [",
    locateEnd := "] table\");\n        return 1;\n    }\n",
    fieldLocals := "\n    toml_datum_t datum;\n    toml_array_t* arr;\n",
    readEnd := "\n    toml_free(root);\n    return 0;\n}\n\n",
    printEnd := "\n    fflush(stdout);\n}\n\n",
    datumIntIn := "    datum = toml_int_in(",
    datumDoubleIn := "    datum = toml_double_in(",
    datumBoolIn := "    datum = toml_bool_in(",
    datumStringIn := "    datum = toml_string_in(",
    arrayIn := "    arr = toml_array_in(",
    takeInt := " = datum.u.i;\n",
    takeDouble := " = datum.u.d;\n",
    takeBool := " = datum.u.b;\n",
    takeString := " = datum.u.s;\n",
    mallocInt := " = malloc(toml_array_nelem(arr) * sizeof(int64_t));\n",
    mallocDouble := " = malloc(toml_array_nelem(arr) * sizeof(double));\n",
    mallocString := " = malloc(toml_array_nelem(arr) * sizeof(char*));\n",
    forEachInt := "    for (int i = 0; i < toml_array_nelem(arr); ++i) {\n        datum = toml_int_at(arr, i);\n",
    forEachDouble := "    for (int i = 0; i < toml_array_nelem(arr); ++i) {\n        datum = toml_double_at(arr, i);\n",
    forEachBool := "    for (int i = 0; i < toml_array_nelem(arr); ++i) {\n        datum = toml_bool_at(arr, i);\n",
    forEachString := "    for (int i = 0; i < toml_array_nelem(arr); ++i) {\n        datum = toml_string_at(arr, i);\n",
    takeIntAt := "[i] = datum.u.i;\n",
    takeDoubleAt := "[i] = datum.u.d;\n",
    takeBoolAt := "[i] = datum.u.b;\n",
    takeStringAt := "[i] = datum.u.s;\n",
    setLen := "_len = toml_array_nelem(arr);\n",
    printf := "    printf(\"",
    formatInt := " = %ld\\n\", ",
    formatDouble := " = %lf\\n\", ",
    formatString := " = %s\\n\", ",
    boolWords := "? \"true\":\"false\");\n",
    forLen := "    for (int i = 0; i < ",
    forLenEnd := "_len; ++i) {\n",
    printfAt := "        printf(\"",
    formatIntAt := "[%d] = %ld\\n\", i, ",
    formatDoubleAt := "[%d] = %lf\\n\", i, ",
    formatStringAt := "[%d] = %s\\n\", i, ",
    boolWordsAt := "[i]?\"true\":\"false\");\n")

  // ----- header -----

  /** What `mk_indent(d)` leaves: `out` followed by four spaces per level. */
  function Indented(out: string, d: int): (r: string)
    ensures |r| == |out| + if d > 0 then 4 * d else 0
    decreases d
  {
    if d <= 0 then out else Indented(out, d - 1) + "    "
  }

  /** What the indentation adds is spaces only, after `out` unchanged. */
  lemma {:induction false} IndentedIsSpaces(out: string, d: int)
    ensures Indented(out, d)[..|out|] == out
    ensures forall i :: |out| <= i < |Indented(out, d)| ==> Indented(out, d)[i] == ' '
    decreases d
  {
    if d > 0 {
      IndentedIsSpaces(out, d - 1);
      var p := Indented(out, d - 1);
      assert Indented(out, d) == p + "    ";
      assert (p + "    ")[..|out|] == p[..|out|];
    }
  }

  /** The member type `h_struct` declares a field of kind `k` with. */
  function TypeName(K: Snippets, k: Kind): string
  {
    match k
    case Int => K.sTypeInt
    case Double => K.sTypeDouble
    case Bool => K.sTypeBool
    case Str => K.sTypeString
    case UntypedArray => K.sTypeArray
    case ArrayOfInt => K.sTypeArrayOfInt
    case ArrayOfDouble => K.sTypeArrayOfDouble
    case ArrayOfBool => K.sTypeArrayOfBool
    case ArrayOfString => K.sTypeArrayOfString
  }

  /** `h_struct` on field `f` of a table at depth `d`: a member line one level
      deeper and, for an array, a `size_t <name>_len;` line after it. */
  function MemberAfter(K: Snippets, out: string, d: nat, f: Field): string
  {
    var o := Indented(out, d + 1) + (TypeName(K, f.kind) + f.name + ";\n");
    if f.kind.IsArray() then Indented(o, d + 1) + ("size_t " + f.name + "_len;\n") else o
  }

  function MembersAfter(K: Snippets, out: string, d: nat, fs: seq<Field>): string
  {
    if fs == [] then out else MemberAfter(K, MembersAfter(K, out, d, fs[..|fs| - 1]), d, fs[|fs| - 1])
  }

  /** `h_struct(t)`: a record opened at the table's depth, its members, the
      records of its children in order, and a closing line with the sanitised
      table name. */
  function StructAfter(K: Snippets, out: string, A: Arena, t: nat): string
    requires WellFormed(A) && t < |A|
    decreases |A| - t, 1
  {
    assert ChildrenOk(A, t);
    var d := A[t].depth;
    var o := MembersAfter(K, Indented(out, d) + K.sTable, d, A[t].fields);
    Indented(StructsAfter(K, o, A, t, A[t].children), d) + ("} " + Cvar(A[t].name) + ";\n")
  }

  /** `h_struct` on the children `cs` of `t`, one after another. */
  function StructsAfter(K: Snippets, out: string, A: Arena, t: nat, cs: seq<nat>): string
    requires WellFormed(A) && t < |A|
    requires forall k :: 0 <= k < |cs| ==> t < cs[k] < |A|
    decreases |A| - t, 0, |cs|
  {
    if cs == [] then out else StructAfter(K, StructsAfter(K, out, A, t, cs[..|cs| - 1]), A, cs[|cs| - 1])
  }

  /** `h_functions(name)`: the prototypes of the three routines, named after
      the root type with its `_t` dropped. */
  function FunctionsAfter(K: Snippets, out: string, name: string): string
  {
    var base := BaseName(name);
    out + K.externOpen + LibPrefix("_")
    + (base + "_read(const char* file, " + name + "** " + base + ");\n")
    + ("void " + LibPrefix("_") + base + "_print(const " + name + "* " + base + ");\n")
    + ("void " + LibPrefix("_") + base + "_free(" + name + "* " + base + ");")
    + K.externClose
  }

  /** The header `write` builds: prologue, nested record, prototypes. */
  function HeaderAfter(K: Snippets, out: string, A: Arena): string
    requires WellFormed(A)
  {
    FunctionsAfter(K, StructAfter(K, out + K.headerPrologue, A, 0), A[0].name)
  }

  // ----- the record as lines -----

  /** One line of the nested record: a block opening, a member, a closing. */
  datatype Line = Open(t: nat) | Member(t: nat, f: Field) | Close(t: nat)

  /** The member lines of table `t` for its fields `fs`, in order. */
  function MemberLines(t: nat, fs: seq<Field>): (r: seq<Line>)
    ensures |r| == |fs|
    ensures forall k :: 0 <= k < |fs| ==> r[k] == Member(t, fs[k])
  {
    if fs == [] then [] else MemberLines(t, fs[..|fs| - 1]) + [Member(t, fs[|fs| - 1])]
  }

  /** The lines of the record of `t`: its opening, a member per field, the
      lines of each child's record, its closing. */
  function StructLines(A: Arena, t: nat): (r: seq<Line>)
    requires WellFormed(A) && t < |A|
    ensures forall k :: 0 <= k < |r| ==> t <= r[k].t < |A|
    decreases |A| - t, 1
  {
    assert ChildrenOk(A, t);
    [Open(t)] + MemberLines(t, A[t].fields) + StructLinesSeq(A, t, A[t].children) + [Close(t)]
  }

  function StructLinesSeq(A: Arena, t: nat, cs: seq<nat>): (r: seq<Line>)
    requires WellFormed(A) && t < |A|
    requires forall k :: 0 <= k < |cs| ==> t < cs[k] < |A|
    ensures forall k :: 0 <= k < |r| ==> t < r[k].t < |A|
    decreases |A| - t, 0, |cs|
  {
    if cs == [] then []
    else StructLinesSeq(A, t, cs[..|cs| - 1]) + StructLines(A, cs[|cs| - 1])
  }

  /** The text of one line. */
  function LineAfter(K: Snippets, out: string, A: Arena, l: Line): string
    requires l.t < |A|
  {
    match l
    case Open(u) => Indented(out, A[u].depth) + K.sTable
    case Member(u, f) => MemberAfter(K, out, A[u].depth, f)
    case Close(u) => Indented(out, A[u].depth) + ("} " + Cvar(A[u].name) + ";\n")
  }

  function LinesAfter(K: Snippets, out: string, A: Arena, ls: seq<Line>): string
    requires forall k :: 0 <= k < |ls| ==> ls[k].t < |A|
  {
    if ls == [] then out else LineAfter(K, LinesAfter(K, out, A, ls[..|ls| - 1]), A, ls[|ls| - 1])
  }

  // ----- source -----

  /** The five pre-order passes of `c_src`. */
  datatype Pass = Decl | Check | Read | Print | Free

  /** `decl_r` on table `t`: declares its handle. */
  function DeclAfter(out: string, A: Arena, t: nat): (r: string)
    requires WellFormed(A) && t < |A|
    ensures |r| >= |out|
  {
    out + ("*" + GetPath(A, t, A[t].name) + ", ")
  }

  /** `check_r` on table `t`: looks its original key up in the parent's
      handle, failing with a message naming the table. */
  function CheckAfter(K: Snippets, out: string, A: Arena, base: string, t: nat): (r: string)
    requires WellFormed(A) && t < |A|
    ensures |r| >= |out|
  {
    out + (K.checkIf + GetPath(A, t, A[t].name) + K.tableIn + GetParentPath(A, t, "") + ", \"" + Tvar(A[t].name)
      + K.checkFailed + LibPrefix("_") + base + K.locateFailed + A[t].name + K.locateEnd)
  }

  /** `read_r` on field `f` of table `t`. */
  function ReadFieldAfter(K: Snippets, out: string, A: Arena, base: string, t: nat, f: Field): (r: string)
    requires WellFormed(A) && t < |A|
    ensures |r| >= |out|
  {
    var h, key, v := GetPath(A, t, A[t].name), Tvar(f.name), GetPathVar(A, t, f.name);
    match f.kind
    case Int =>
      out + (K.datumIntIn + h + ", \"" + key + "\");\n") + ("    (*" + base + ")->" + v + K.takeInt)
    case Double =>
      out + (K.datumDoubleIn + h + ", \"" + key + "\");\n") + ("    (*" + base + ")->" + v + K.takeDouble)
    case Bool =>
      out + (K.datumBoolIn + h + ", \"" + key + "\");\n") + ("    (*" + base + ")->" + v + K.takeBool)
    case Str =>
      out + (K.datumStringIn + h + ", \"" + key + "\");\n") + ("    (*" + base + ")->" + v + K.takeString)
    case ArrayOfInt =>
      out + (K.arrayIn + h + ", \"" + key + "\");\n") + ("    (*" + base + ")->" + v + K.mallocInt)
      + K.forEachInt + ("        (*" + base + ")->" + v + K.takeIntAt) + "    }\n"
      + ("    (*" + base + ")->" + v + K.setLen)
    case ArrayOfDouble =>
      out + (K.arrayIn + h + ", \"" + key + "\");\n") + ("    (*" + base + ")->" + v + K.mallocDouble)
      + K.forEachDouble + ("        (*" + base + ")->" + v + K.takeDoubleAt) + "    }\n"
      + ("    (*" + base + ")->" + v + K.setLen)
    case ArrayOfBool =>
      out + (K.arrayIn + h + ", \"" + key + "\");\n") + ("    (*" + base + ")->" + v + K.mallocDouble)
      + K.forEachBool + ("        (*" + base + ")->" + v + K.takeBoolAt) + "    }\n"
      + ("(*" + base + ")->" + v + K.setLen)
    case ArrayOfString =>
      out + (K.arrayIn + h + ", \"" + key + "\");\n") + ("    (*" + base + ")->" + v + K.mallocString)
      + K.forEachString + ("        (*" + base + ")->" + v + K.takeStringAt) + "    }\n"
      + ("    (*" + base + ")->" + v + K.setLen)
    case UntypedArray => out
  }

  /** `print_r` on field `f` of table `t`. */
  function PrintFieldAfter(K: Snippets, out: string, A: Arena, base: string, t: nat, f: Field): (r: string)
    requires WellFormed(A) && t < |A|
    ensures |r| >= |out|
  {
    var v := GetPathVar(A, t, f.name);
    match f.kind
    case Int => out + (K.printf + base + "." + v + K.formatInt + base + "->" + v + ");\n")
    case Double => out + (K.printf + base + "." + v + K.formatDouble + base + "->" + v + ");\n")
    case Bool => out + (K.printf + base + "." + v + K.formatString + base + "->" + v + K.boolWords)
    case Str => out + (K.printf + base + "." + v + K.formatString + base + "->" + v + ");\n")
    case ArrayOfInt =>
      out + (K.forLen + base + "->" + v + K.forLenEnd)
      + (K.printfAt + base + "." + v + K.formatIntAt + base + "->" + v + "[i]);\n") + "    };\n"
    case ArrayOfDouble =>
      out + (K.forLen + base + "->" + v + K.forLenEnd)
      + (K.printfAt + base + "." + v + K.formatDoubleAt + base + "->" + v + "[i]);\n") + "    };\n"
    case ArrayOfBool =>
      out + (K.forLen + base + "->" + v + K.forLenEnd)
      + (K.printfAt + base + "." + v + K.formatStringAt + base + "->" + v + K.boolWordsAt) + "    };\n"
    case ArrayOfString =>
      out + (K.forLen + base + "->" + v + K.forLenEnd)
      + (K.printfAt + base + "." + v + K.formatStringAt + base + "->" + v + "[i]);\n") + "    };\n"
    case UntypedArray => out
  }

  /** `free_r` on field `f` of table `t`. */
  function FreeFieldAfter(K: Snippets, out: string, A: Arena, base: string, t: nat, f: Field): (r: string)
    requires WellFormed(A) && t < |A|
    ensures |r| >= |out|
  {
    var v := GetPathVar(A, t, f.name);
    match f.kind
    case Str | ArrayOfInt | ArrayOfBool | ArrayOfDouble =>
      out + ("    free(" + base + "->" + v + ");\n")
    case ArrayOfString =>
      out + (K.forLen + base + "->" + v + K.forLenEnd) + ("        free(" + base + "->" + v + "[i]);\n")
      + "    }\n" + ("    free(" + base + "->" + v + ");\n")
    case _ => out
  }

  /** A field pass on field `f` of table `t`. */
  function FieldAfter(K: Snippets, out: string, A: Arena, base: string, pass: Pass, t: nat, f: Field): (r: string)
    requires WellFormed(A) && t < |A|
    ensures |r| >= |out|
  {
    match pass
    case Read => ReadFieldAfter(K, out, A, base, t, f)
    case Print => PrintFieldAfter(K, out, A, base, t, f)
    case Free => FreeFieldAfter(K, out, A, base, t, f)
    case _ => out
  }

  /** A field pass on the fields `fs` of table `t`, in order. */
  function FieldsAfter(K: Snippets, out: string, A: Arena, base: string, pass: Pass, t: nat, fs: seq<Field>): (r: string)
    requires WellFormed(A) && t < |A|
    ensures |r| >= |out|
  {
    if fs == [] then out
    else FieldAfter(K, FieldsAfter(K, out, A, base, pass, t, fs[..|fs| - 1]), A, base, pass, t, fs[|fs| - 1])
  }

  /** One visit of table `t` by a pass, before its children are visited. */
  function TableAfter(K: Snippets, out: string, A: Arena, base: string, pass: Pass, t: nat): (r: string)
    requires WellFormed(A) && t < |A|
    ensures |r| >= |out|
  {
    match pass
    case Decl => DeclAfter(out, A, t)
    case Check => CheckAfter(K, out, A, base, t)
    case _ => FieldsAfter(K, out, A, base, pass, t, A[t].fields)
  }

  /** A pass on the subtree of `t`: `t` itself, then each child's subtree. */
  function TreeAfter(K: Snippets, out: string, A: Arena, base: string, pass: Pass, t: nat): (r: string)
    requires WellFormed(A) && t < |A|
    ensures |r| >= |out|
    decreases |A| - t, 1
  {
    assert ChildrenOk(A, t);
    ForestAfter(K, TableAfter(K, out, A, base, pass, t), A, base, pass, t, A[t].children)
  }

  /** A pass on the subtrees of the children `cs` of `t`, one after another. */
  function ForestAfter(K: Snippets, out: string, A: Arena, base: string, pass: Pass, t: nat, cs: seq<nat>): (r: string)
    requires WellFormed(A) && t < |A|
    requires forall k :: 0 <= k < |cs| ==> t < cs[k] < |A|
    ensures |r| >= |out|
    decreases |A| - t, 0, |cs|
  {
    if cs == [] then out
    else TreeAfter(K, ForestAfter(K, out, A, base, pass, t, cs[..|cs| - 1]), A, base, pass, cs[|cs| - 1])
  }

  /** A pass visiting the tables `us` in that order. */
  function PassAfter(K: Snippets, out: string, A: Arena, base: string, pass: Pass, us: seq<nat>): string
    requires WellFormed(A) && forall k :: 0 <= k < |us| ==> us[k] < |A|
  {
    if us == [] then out
    else TableAfter(K, PassAfter(K, out, A, base, pass, us[..|us| - 1]), A, base, pass, us[|us| - 1])
  }

  /** The second-to-last character overwritten with a semicolon, as `c_src`
      does to end the declaration of the table handles. A buffer shorter than
      two characters, which the fixed text of the read routine rules out, is
      left as it is. */
  function Patch(s: string): string
  {
    if |s| >= 2 then s[|s| - 2 := ';'] else s
  }

  /** The patch changes one character only: the second-to-last, into ';'. */
  lemma PatchRule(s: string)
    ensures |Patch(s)| == |s|
    ensures |s| >= 2 ==> Patch(s)[..|s| - 2] == s[..|s| - 2] && Patch(s)[|s| - 2] == ';' && Patch(s)[|s| - 1] == s[|s| - 1]
    ensures |s| < 2 ==> Patch(s) == s
  {
  }

  /** The start of the read routine `c_src` writes: the include line, the
      signature, and the allocation of the result when the caller passed none. */
  function SignatureAfter(K: Snippets, out: string, name: string, oName: string): string
  {
    var base := BaseName(name);
    out + ("#include \"" + LibPrefix("-") + oName) + K.includeRest + LibPrefix("_")
    + (base + "_read(const char* file_path, " + name + "** " + base + ") {") + K.readLocals
    + (base + " == NULL) {\n") + ("        *" + base + " = calloc(1, sizeof(" + name + "));\n")
    + "    }\n"
  }

  /** Opening and parsing the file, each failure reported with the routine's
      name, then the start of the declaration of the table handles. */
  function ParseAfter(K: Snippets, out: string, name: string): string
  {
    var base := BaseName(name);
    out + K.openFile + (LibPrefix("_") + base) + K.openFailed + (LibPrefix("_") + base) + K.parseFailed
  }

  /** The handles of all tables below the root, declared in pre-order; the
      separator after the last one becomes the end of the declaration. */
  function HandlesAfter(K: Snippets, out: string, A: Arena, base: string): string
    requires WellFormed(A)
  {
    assert ChildrenOk(A, 0);
    Patch(ForestAfter(K, out, A, base, Decl, 0, A[0].children)) + "\n"
  }

  /** The lookup of every table below the root, then the locals the field
      reads use. */
  function LocateAfter(K: Snippets, out: string, A: Arena, base: string): string
    requires WellFormed(A)
  {
    assert ChildrenOk(A, 0);
    ForestAfter(K, out, A, base, Check, 0, A[0].children) + K.fieldLocals
  }

  /** The field reads, the end of the read routine and the start of the
      print routine. */
  function ReadsAfter(K: Snippets, out: string, A: Arena, base: string): string
    requires WellFormed(A)
  {
    var name := A[0].name;
    TreeAfter(K, out, A, base, Read, 0) + K.readEnd
    + ("void " + LibPrefix("_") + base + "_print(const " + name + "* " + base + ") {\n")
    + ("    printf(\"Read " + base + ".toml values:\\n\");\n\n")
  }

  /** The field prints, the end of the print routine and the start of the
      free routine. */
  function PrintsAfter(K: Snippets, out: string, A: Arena, base: string): string
    requires WellFormed(A)
  {
    var name := A[0].name;
    TreeAfter(K, out, A, base, Print, 0) + K.printEnd
    + ("    void " + LibPrefix("_") + base + "_free(" + name + "* " + base + ") {\n")
  }

  /** The releases of the owned fields and of the record itself. */
  function FreesAfter(K: Snippets, out: string, A: Arena, base: string): string
    requires WellFormed(A)
  {
    TreeAfter(K, out, A, base, Free, 0) + ("\n    free(" + base + ");\n}\n")
  }

  /** The first part of `c_src(root)`: the read routine up to its field
      reads (opening and parsing the file, declaring and locating every
      nested table). */
  function ReadHeadAfter(K: Snippets, out: string, A: Arena, oName: string): string
    requires WellFormed(A)
  {
    var name := A[0].name;
    var base := BaseName(name);
    LocateAfter(K, HandlesAfter(K, ParseAfter(K, SignatureAfter(K, out, name, oName), name), A, base), A, base)
  }

  /** `c_src(root)`: the read routine (opening and parsing the file, declaring
      and locating every nested table, reading every field), the print
      routine and the free routine. `oName` is the stem of the example file. */
  function SourceAfter(K: Snippets, out: string, A: Arena, oName: string): string
    requires WellFormed(A)
  {
    var base := BaseName(A[0].name);
    FreesAfter(K, PrintsAfter(K, ReadsAfter(K, ReadHeadAfter(K, out, A, oName), A, base), A, base), A, base)
  }
}
