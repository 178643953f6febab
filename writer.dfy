/** `Writer`: appends the header text and then the source text to its output
    buffer, walking the schema arena the way the generated code reads it. */
module Writing {
  import opened Names
  import opened Schema
  import opened Paths
  import opened Emit

  class Writer {
    /** `o_name`: the stem of the example file, naming the outputs. */
    var oName: string
    /** `out`: the text being produced. */
    var out: string
    /** The fixed C text the writer emits around the derived names. */
    const code: Snippets

    constructor ()
      ensures code == Toml2c && oName == "" && out == ""
    {
      code := Toml2c;
      oName := "";
      out := "";
    }

    /** `mk_indent`: four spaces per level; returns how much it appended. */
    method MkIndent(depth: nat) returns (n: nat)
      modifies this`out
      ensures out == Indented(old(out), depth)
      ensures n == |out| - |old(out)| == 4 * depth
    {
      var before := |out|;
      var i := 0;
      while i < depth
        invariant 0 <= i <= depth
        invariant out == Indented(old(out), i)
      {
        out := out + "    ";
        i := i + 1;
      }
      n := |out| - before;
    }

    /** `h_header`. */
    method HHeader()
      modifies this`out
      ensures out == old(out) + code.headerPrologue
    {
      out := out + code.headerPrologue;
    }

    /** `h_struct`: the record of table `t` and, nested inside it, those of
        its descendants. */
    method HStruct(A: Arena, t: nat)
      requires WellFormed(A) && t < |A|
      modifies this`out
      ensures out == StructAfter(code, old(out), A, t)
      decreases |A| - t
    {
      var d := A[t].depth;
      var _ := MkIndent(d);
      out := out + code.sTable;
      ghost var head := out;
      var fs := A[t].fields;
      for i := 0 to |fs|
        invariant out == MembersAfter(code, head, d, fs[..i])
      {
        assert fs[..i + 1][..i] == fs[..i];
        HMember(d, fs[i]);
      }
      assert fs[..|fs|] == fs;
      ghost var members := out;
      var cs := A[t].children;
      assert ChildrenOk(A, t);
      for i := 0 to |cs|
        invariant out == StructsAfter(code, members, A, t, cs[..i])
      {
        assert cs[..i + 1][..i] == cs[..i];
        HStruct(A, cs[i]);
      }
      assert cs[..|cs|] == cs;
      var _ := MkIndent(d);
      out := out + ("} " + Cvar(A[t].name) + ";\n");
    }

    /** One turn of the field loop of `h_struct`: the member line of `f`
        and, for an array, the line holding its length. */
    method HMember(d: nat, f: Field)
      modifies this`out
      ensures out == MemberAfter(code, old(out), d, f)
    {
      var _ := MkIndent(d + 1);
      match f.kind
      case Int =>
        out := out + (code.sTypeInt + f.name + ";\n");
      case Str =>
        out := out + (code.sTypeString + f.name + ";\n");
      case Double =>
        out := out + (code.sTypeDouble + f.name + ";\n");
      case Bool =>
        out := out + (code.sTypeBool + f.name + ";\n");
      case UntypedArray =>
        out := out + (code.sTypeArray + f.name + ";\n");
        var _ := MkIndent(d + 1);
        out := out + ("size_t " + f.name + "_len;\n");
      case ArrayOfInt =>
        out := out + (code.sTypeArrayOfInt + f.name + ";\n");
        var _ := MkIndent(d + 1);
        out := out + ("size_t " + f.name + "_len;\n");
      case ArrayOfDouble =>
        out := out + (code.sTypeArrayOfDouble + f.name + ";\n");
        var _ := MkIndent(d + 1);
        out := out + ("size_t " + f.name + "_len;\n");
      case ArrayOfBool =>
        out := out + (code.sTypeArrayOfBool + f.name + ";\n");
        var _ := MkIndent(d + 1);
        out := out + ("size_t " + f.name + "_len;\n");
      case ArrayOfString =>
        out := out + (code.sTypeArrayOfString + f.name + ";\n");
        var _ := MkIndent(d + 1);
        out := out + ("size_t " + f.name + "_len;\n");
    }

    /** `h_functions`: the prototypes of the read, print and free routines. */
    method HFunctions(name: string)
      modifies this`out
      ensures out == FunctionsAfter(code, old(out), name)
    {
      var base := BaseName(name);
      out := out + code.externOpen;
      out := out + LibPrefix("_");
      out := out + (base + "_read(const char* file, " + name + "** " + base + ");\n");
      out := out + ("void " + LibPrefix("_") + base + "_print(const " + name + "* " + base + ");\n");
      out := out + ("void " + LibPrefix("_") + base + "_free(" + name + "* " + base + ");");
      out := out + code.externClose;
    }

    /** `decl_r`: declares the handle of `t`, then of each descendant. */
    method DeclR(A: Arena, base: string, t: nat)
      requires WellFormed(A) && t < |A|
      modifies this`out
      ensures out == TreeAfter(code, old(out), A, base, Decl, t)
      decreases |A| - t
    {
      out := out + ("*" + GetPath(A, t, A[t].name) + ", ");
      ghost var own := out;
      var cs := A[t].children;
      assert ChildrenOk(A, t);
      for i := 0 to |cs|
        invariant out == ForestAfter(code, own, A, base, Decl, t, cs[..i])
      {
        assert cs[..i + 1][..i] == cs[..i];
        DeclR(A, base, cs[i]);
      }
      assert cs[..|cs|] == cs;
    }

    /** `check_r`: locates the table `t`, then each descendant. */
    method CheckR(A: Arena, base: string, t: nat)
      requires WellFormed(A) && t < |A|
      modifies this`out
      ensures out == TreeAfter(code, old(out), A, base, Check, t)
      decreases |A| - t
    {
      CheckOne(A, base, t);
      ghost var own := out;
      var cs := A[t].children;
      assert ChildrenOk(A, t);
      for i := 0 to |cs|
        invariant out == ForestAfter(code, own, A, base, Check, t, cs[..i])
      {
        assert cs[..i + 1][..i] == cs[..i];
        CheckR(A, base, cs[i]);
      }
      assert cs[..|cs|] == cs;
    }

    /** The statement of `check_r` that looks table `t` up in its parent. */
    method CheckOne(A: Arena, base: string, t: nat)
      requires WellFormed(A) && t < |A|
      modifies this`out
      ensures out == CheckAfter(code, old(out), A, base, t)
    {
      out := out + (code.checkIf + GetPath(A, t, A[t].name) + code.tableIn + GetParentPath(A, t, "") + ", \""
        + Tvar(A[t].name) + code.checkFailed + LibPrefix("_") + base + code.locateFailed + A[t].name + code.locateEnd);
    }

    /** `read_r`: reads the fields of `t`, then those of each descendant. */
    method ReadR(A: Arena, base: string, t: nat)
      requires WellFormed(A) && t < |A|
      modifies this`out
      ensures out == TreeAfter(code, old(out), A, base, Read, t)
      decreases |A| - t
    {
      ReadTable(A, base, t);
      ghost var own := out;
      var cs := A[t].children;
      assert ChildrenOk(A, t);
      for i := 0 to |cs|
        invariant out == ForestAfter(code, own, A, base, Read, t, cs[..i])
      {
        assert cs[..i + 1][..i] == cs[..i];
        ReadR(A, base, cs[i]);
      }
      assert cs[..|cs|] == cs;
    }

    /** The field loop of `read_r` on table `t`. */
    method ReadTable(A: Arena, base: string, t: nat)
      requires WellFormed(A) && t < |A|
      modifies this`out
      ensures out == FieldsAfter(code, old(out), A, base, Read, t, A[t].fields)
    {
      var fs := A[t].fields;
      for i := 0 to |fs|
        invariant out == FieldsAfter(code, old(out), A, base, Read, t, fs[..i])
      {
        assert fs[..i + 1][..i] == fs[..i];
        ReadField(A, base, t, fs[i]);
      }
      assert fs[..|fs|] == fs;
    }

    /** One turn of the field loop of `read_r`: the switch on the field kind. */
    method ReadField(A: Arena, base: string, t: nat, f: Field)
      requires WellFormed(A) && t < |A|
      modifies this`out
      ensures out == ReadFieldAfter(code, old(out), A, base, t, f)
    {
      match f.kind
      case Int =>
        out := out + (code.datumIntIn + GetPath(A, t, A[t].name) + ", \"" + Tvar(f.name) + "\");\n");
        out := out + ("    (*" + base + ")->" + GetPathVar(A, t, f.name) + code.takeInt);
      case Double =>
        out := out + (code.datumDoubleIn + GetPath(A, t, A[t].name) + ", \"" + Tvar(f.name) + "\");\n");
        out := out + ("    (*" + base + ")->" + GetPathVar(A, t, f.name) + code.takeDouble);
      case Bool =>
        out := out + (code.datumBoolIn + GetPath(A, t, A[t].name) + ", \"" + Tvar(f.name) + "\");\n");
        out := out + ("    (*" + base + ")->" + GetPathVar(A, t, f.name) + code.takeBool);
      case Str =>
        out := out + (code.datumStringIn + GetPath(A, t, A[t].name) + ", \"" + Tvar(f.name) + "\");\n");
        out := out + ("    (*" + base + ")->" + GetPathVar(A, t, f.name) + code.takeString);
      case ArrayOfInt =>
        out := out + (code.arrayIn + GetPath(A, t, A[t].name) + ", \"" + Tvar(f.name) + "\");\n");
        out := out + ("    (*" + base + ")->" + GetPathVar(A, t, f.name) + code.mallocInt);
        out := out + code.forEachInt;
        out := out + ("        (*" + base + ")->" + GetPathVar(A, t, f.name) + code.takeIntAt);
        out := out + "    }\n";
        out := out + ("    (*" + base + ")->" + GetPathVar(A, t, f.name) + code.setLen);
      case ArrayOfDouble =>
        out := out + (code.arrayIn + GetPath(A, t, A[t].name) + ", \"" + Tvar(f.name) + "\");\n");
        out := out + ("    (*" + base + ")->" + GetPathVar(A, t, f.name) + code.mallocDouble);
        out := out + code.forEachDouble;
        out := out + ("        (*" + base + ")->" + GetPathVar(A, t, f.name) + code.takeDoubleAt);
        out := out + "    }\n";
        out := out + ("    (*" + base + ")->" + GetPathVar(A, t, f.name) + code.setLen);
      case ArrayOfBool =>
        out := out + (code.arrayIn + GetPath(A, t, A[t].name) + ", \"" + Tvar(f.name) + "\");\n");
        out := out + ("    (*" + base + ")->" + GetPathVar(A, t, f.name) + code.mallocDouble);
        out := out + code.forEachBool;
        out := out + ("        (*" + base + ")->" + GetPathVar(A, t, f.name) + code.takeBoolAt);
        out := out + "    }\n";
        out := out + ("(*" + base + ")->" + GetPathVar(A, t, f.name) + code.setLen);
      case ArrayOfString =>
        out := out + (code.arrayIn + GetPath(A, t, A[t].name) + ", \"" + Tvar(f.name) + "\");\n");
        out := out + ("    (*" + base + ")->" + GetPathVar(A, t, f.name) + code.mallocString);
        out := out + code.forEachString;
        out := out + ("        (*" + base + ")->" + GetPathVar(A, t, f.name) + code.takeStringAt);
        out := out + "    }\n";
        out := out + ("    (*" + base + ")->" + GetPathVar(A, t, f.name) + code.setLen);
      case UntypedArray =>
    }

    /** `print_r`: prints the fields of `t`, then those of each descendant. */
    method PrintR(A: Arena, base: string, t: nat)
      requires WellFormed(A) && t < |A|
      modifies this`out
      ensures out == TreeAfter(code, old(out), A, base, Print, t)
      decreases |A| - t
    {
      PrintTable(A, base, t);
      ghost var own := out;
      var cs := A[t].children;
      assert ChildrenOk(A, t);
      for i := 0 to |cs|
        invariant out == ForestAfter(code, own, A, base, Print, t, cs[..i])
      {
        assert cs[..i + 1][..i] == cs[..i];
        PrintR(A, base, cs[i]);
      }
      assert cs[..|cs|] == cs;
    }

    /** The field loop of `print_r` on table `t`. */
    method PrintTable(A: Arena, base: string, t: nat)
      requires WellFormed(A) && t < |A|
      modifies this`out
      ensures out == FieldsAfter(code, old(out), A, base, Print, t, A[t].fields)
    {
      var fs := A[t].fields;
      for i := 0 to |fs|
        invariant out == FieldsAfter(code, old(out), A, base, Print, t, fs[..i])
      {
        assert fs[..i + 1][..i] == fs[..i];
        PrintField(A, base, t, fs[i]);
      }
      assert fs[..|fs|] == fs;
    }

    /** One turn of the field loop of `print_r`. */
    method PrintField(A: Arena, base: string, t: nat, f: Field)
      requires WellFormed(A) && t < |A|
      modifies this`out
      ensures out == PrintFieldAfter(code, old(out), A, base, t, f)
    {
      match f.kind
      case Int =>
        out := out + (code.printf + base + "." + GetPathVar(A, t, f.name) + code.formatInt + base + "->" + GetPathVar(A, t, f.name) + ");\n");
      case Double =>
        out := out + (code.printf + base + "." + GetPathVar(A, t, f.name) + code.formatDouble + base + "->" + GetPathVar(A, t, f.name) + ");\n");
      case Bool =>
        out := out + (code.printf + base + "." + GetPathVar(A, t, f.name) + code.formatString + base + "->" + GetPathVar(A, t, f.name) + code.boolWords);
      case Str =>
        out := out + (code.printf + base + "." + GetPathVar(A, t, f.name) + code.formatString + base + "->" + GetPathVar(A, t, f.name) + ");\n");
      case ArrayOfInt =>
        out := out + (code.forLen + base + "->" + GetPathVar(A, t, f.name) + code.forLenEnd);
        out := out + (code.printfAt + base + "." + GetPathVar(A, t, f.name) + code.formatIntAt + base + "->" + GetPathVar(A, t, f.name) + "[i]);\n");
        out := out + "    };\n";
      case ArrayOfDouble =>
        out := out + (code.forLen + base + "->" + GetPathVar(A, t, f.name) + code.forLenEnd);
        out := out + (code.printfAt + base + "." + GetPathVar(A, t, f.name) + code.formatDoubleAt + base + "->" + GetPathVar(A, t, f.name) + "[i]);\n");
        out := out + "    };\n";
      case ArrayOfBool =>
        out := out + (code.forLen + base + "->" + GetPathVar(A, t, f.name) + code.forLenEnd);
        out := out + (code.printfAt + base + "." + GetPathVar(A, t, f.name) + code.formatStringAt + base + "->" + GetPathVar(A, t, f.name) + code.boolWordsAt);
        out := out + "    };\n";
      case ArrayOfString =>
        out := out + (code.forLen + base + "->" + GetPathVar(A, t, f.name) + code.forLenEnd);
        out := out + (code.printfAt + base + "." + GetPathVar(A, t, f.name) + code.formatStringAt + base + "->" + GetPathVar(A, t, f.name) + "[i]);\n");
        out := out + "    };\n";
      case UntypedArray =>
    }

    /** `free_r`: releases the owned fields of `t`, then of each descendant. */
    method FreeR(A: Arena, base: string, t: nat)
      requires WellFormed(A) && t < |A|
      modifies this`out
      ensures out == TreeAfter(code, old(out), A, base, Free, t)
      decreases |A| - t
    {
      var fs := A[t].fields;
      for i := 0 to |fs|
        invariant out == FieldsAfter(code, old(out), A, base, Free, t, fs[..i])
      {
        assert fs[..i + 1][..i] == fs[..i];
        var f := fs[i];
        match f.kind
        case Str | ArrayOfInt | ArrayOfBool | ArrayOfDouble =>
          out := out + ("    free(" + base + "->" + GetPathVar(A, t, f.name) + ");\n");
        case ArrayOfString =>
          out := out + (code.forLen + base + "->" + GetPathVar(A, t, f.name) + code.forLenEnd);
          out := out + ("        free(" + base + "->" + GetPathVar(A, t, f.name) + "[i]);\n");
          out := out + "    }\n";
          out := out + ("    free(" + base + "->" + GetPathVar(A, t, f.name) + ");\n");
        case _ =>
      }
      assert fs[..|fs|] == fs;
      ghost var own := out;
      var cs := A[t].children;
      assert ChildrenOk(A, t);
      for i := 0 to |cs|
        invariant out == ForestAfter(code, own, A, base, Free, t, cs[..i])
      {
        assert cs[..i + 1][..i] == cs[..i];
        FreeR(A, base, cs[i]);
      }
      assert cs[..|cs|] == cs;
    }

    /** The include line and the signature of the read routine. */
    method ReadSignature(name: string)
      modifies this`out
      ensures out == SignatureAfter(code, old(out), name, oName)
    {
      var base := BaseName(name);
      out := out + ("#include \"" + LibPrefix("-") + oName);
      out := out + code.includeRest;
      out := out + LibPrefix("_");
      out := out + (base + "_read(const char* file_path, " + name + "** " + base + ") {");
      out := out + code.readLocals;
      out := out + (base + " == NULL) {\n");
      out := out + ("        *" + base + " = calloc(1, sizeof(" + name + "));\n");
      out := out + "    }\n";
    }

    /** Opening and parsing the file in the read routine. */
    method ReadParse(name: string)
      modifies this`out
      ensures out == ParseAfter(code, old(out), name)
    {
      var base := BaseName(name);
      out := out + code.openFile;
      out := out + (LibPrefix("_") + base);
      out := out + code.openFailed;
      out := out + (LibPrefix("_") + base);
      out := out + code.parseFailed;
    }

    /** The loop of `c_src` running `decl_r` on the root's children, and the
        semicolon written over the last separator. */
    method DeclHandles(A: Arena, base: string)
      requires WellFormed(A)
      modifies this`out
      ensures out == HandlesAfter(code, old(out), A, base)
    {
      var cs := A[0].children;
      assert ChildrenOk(A, 0);
      for i := 0 to |cs|
        invariant out == ForestAfter(code, old(out), A, base, Decl, 0, cs[..i])
      {
        assert cs[..i + 1][..i] == cs[..i];
        DeclR(A, base, cs[i]);
      }
      assert cs[..|cs|] == cs;
      if |out| >= 2 {
        out := out[|out| - 2 := ';'];
      }
      out := out + "\n";
    }

    /** The loop of `c_src` running `check_r` on the root's children, then
        the locals of the field reads. */
    method CheckTables(A: Arena, base: string)
      requires WellFormed(A)
      modifies this`out
      ensures out == LocateAfter(code, old(out), A, base)
    {
      var cs := A[0].children;
      assert ChildrenOk(A, 0);
      for i := 0 to |cs|
        invariant out == ForestAfter(code, old(out), A, base, Check, 0, cs[..i])
      {
        assert cs[..i + 1][..i] == cs[..i];
        CheckR(A, base, cs[i]);
      }
      assert cs[..|cs|] == cs;
      out := out + code.fieldLocals;
    }

    /** `read_r` on the root, the end of the read routine and the start of
        the print routine. */
    method ReadFields(A: Arena, base: string)
      requires WellFormed(A)
      modifies this`out
      ensures out == ReadsAfter(code, old(out), A, base)
    {
      var name := A[0].name;
      ReadR(A, base, 0);
      out := out + code.readEnd;
      out := out + ("void " + LibPrefix("_") + base + "_print(const " + name + "* " + base + ") {\n");
      out := out + ("    printf(\"Read " + base + ".toml values:\\n\");\n\n");
    }

    /** `print_r` on the root, the end of the print routine and the start of
        the free routine. */
    method PrintFields(A: Arena, base: string)
      requires WellFormed(A)
      modifies this`out
      ensures out == PrintsAfter(code, old(out), A, base)
    {
      var name := A[0].name;
      PrintR(A, base, 0);
      out := out + code.printEnd;
      out := out + ("    void " + LibPrefix("_") + base + "_free(" + name + "* " + base + ") {\n");
    }

    /** `free_r` on the root and the release of the record itself. */
    method FreeFields(A: Arena, base: string)
      requires WellFormed(A)
      modifies this`out
      ensures out == FreesAfter(code, old(out), A, base)
    {
      FreeR(A, base, 0);
      out := out + ("\n    free(" + base + ");\n}\n");
    }

    /** `c_src`: the read, print and free routines for the arena's root. */
    method CSrc(A: Arena)
      requires WellFormed(A)
      modifies this`out
      ensures out == SourceAfter(code, old(out), A, oName)
    {
      CSrcHead(A);
      CSrcTail(A);
    }

    /** The rest of `c_src`: the field reads, the print and free routines. */
    method CSrcTail(A: Arena)
      requires WellFormed(A)
      modifies this`out
      ensures var base := BaseName(A[0].name);
        out == FreesAfter(code, PrintsAfter(code, ReadsAfter(code, old(out), A, base), A, base), A, base)
    {
      var base := BaseName(A[0].name);
      ReadFields(A, base);
      PrintFields(A, base);
      FreeFields(A, base);
    }

    /** The first part of `c_src`, up to the field reads. */
    method CSrcHead(A: Arena)
      requires WellFormed(A)
      modifies this`out
      ensures out == ReadHeadAfter(code, old(out), A, oName)
    {
      var name := A[0].name;
      var base := BaseName(name);
      ReadSignature(name);
      ReadParse(name);
      DeclHandles(A, base);
      CheckTables(A, base);
    }

    /** `h_finalize` without the file output: the name of the header file
        and the text it receives. */
    method HFinalize() returns (file: string, text: string)
      ensures file == LibPrefix("-") + oName + ".h" && text == out
    {
      file := LibPrefix("-") + oName + ".h";
      text := out;
    }

    /** `c_finalize` without the file output: the name of the source file
        and the text it receives. */
    method CFinalize() returns (file: string, text: string)
      ensures file == LibPrefix("-") + oName + ".c" && text == out
    {
      file := LibPrefix("-") + oName + ".c";
      text := out;
    }

    /** `Writer::write` without the file output: the names and texts of the
        header and the source it writes, both named after the stem of `name`. */
    method Write(name: string, A: Arena) returns (hFile: string, header: string, cFile: string, source: string)
      requires WellFormed(A)
      modifies this
      ensures oName == Stem(name)
      ensures hFile == LibPrefix("-") + Stem(name) + ".h"
      ensures header == HeaderAfter(code, old(out), A)
      ensures cFile == LibPrefix("-") + Stem(name) + ".c"
      ensures source == SourceAfter(code, "", A, Stem(name))
      ensures out == ""
    {
      oName := StripName(name);
      HHeader();
      HStruct(A, 0);
      HFunctions(A[0].name);
      hFile, header := HFinalize();
      out := "";
      CSrc(A);
      cFile, source := CFinalize();
      out := "";
    }
  }
}
