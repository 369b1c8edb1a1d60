/** The TOML printer as it appends to string streams. */
module TomlPrinter {
  import opened ConfigTree
  import opened Numerals
  import opened TomlText
  import opened TomlParse
  import opened TomlParser
  import opened TomlRoundTrip
  import opened TomlFaults
  import opened TomlDocuments
  import opened TomlExact

  class Stream {
    var text: string

    constructor ()
      ensures text == ""
    {
      text := "";
    }

    method Put(s: string)
      modifies this
      ensures text == old(text) + s
    {
      text := text + s;
    }
  }

  /** Adding to what is done takes from what is left. */
  lemma Moved(done: string, step: string, left: string, base: string)
    ensures (done + step) + left == done + (step + left)
    ensures (base + done) + step == base + (done + step)
  {}

  lemma Joined(a: string, b: string, c: string, d: string)
    ensures a + b + c + d == a + (b + c + d)
  {}

  function Line(io: Doubles, e: Entry, indent: nat): string {
    e.key + " = " + DumpValue(io, e.value, indent)
  }

  method DumpEntry(io: Doubles, ss: Stream, e: Entry, indent: nat)
    modifies ss
    ensures ss.text == old(ss.text) + Line(io, e, indent)
    decreases e, 2
  {
    ss.Put(e.key);
    ss.Put(" = ");
    Dump(io, ss, e.value, indent);
    Joined(old(ss.text), e.key, " = ", DumpValue(io, e.value, indent));
  }

  method Dump(io: Doubles, ss: Stream, node: Node, indent: nat)
    modifies ss
    ensures ss.text == old(ss.text) + DumpValue(io, node, indent)
    decreases node, 1
  {
    match node {
      case Dict(es) => DumpLocalDict(io, ss, es, indent);
      case Array(items) => DumpArray(io, ss, items, indent);
      case Int(i) => ss.Put(IntText(i));
      case Bool(b) => if b { ss.Put("true"); } else { ss.Put("false"); }
      case Float(f) => ss.Put(io.show(f));
      case Str(s) =>
        ss.Put("\"");
        ss.Put(s);
        ss.Put("\"");
        Joined(old(ss.text), "\"", s, "\"");
    }
  }

  method DumpArray(io: Doubles, ss: Stream, items: seq<Node>, indent: nat)
    modifies ss
    ensures ss.text == old(ss.text) + DumpValue(io, Array(items), indent)
    decreases items, 0
  {
    hide *;
    ss.Put("[");
    ghost var base := ss.text;
    ghost var done := "";
    var returned := false;
    assert base + "" == base && items[0..] == items;
    assert "" + DumpItems(io, items, true, false, indent) == DumpItems(io, items, true, false, indent);
    for i := 0 to |items|
      invariant ss.text == base + done
      invariant done + DumpItems(io, items[i..], i == 0, returned, indent) == DumpItems(io, items, true, false, indent)
    {
      ghost var was := returned;
      DumpSeparator(ss, i == 0, returned, indent);
      ItemsStep(io, items, i, was, indent);
      returned := returned || Breaks(items[i]);
      Dump(io, ss, items[i], indent + 1);
      ghost var step := Separator(i == 0, was, indent) + DumpValue(io, items[i], indent + 1);
      Moved(done, step, DumpItems(io, items[i + 1..], false, returned, indent), base);
      Moved(base + done, Separator(i == 0, was, indent), DumpValue(io, items[i], indent + 1), "");
      done := done + step;
    }
    assert items[|items|..] == [];
    NothingDumped(io, indent, |items| == 0, returned);
    assert done + "" == done;
    ss.Put("]");
    ArrayText(io, items, indent);
    Joined(old(ss.text), "[", DumpItems(io, items, true, false, indent), "]");
  }

  lemma NothingDumped(io: Doubles, indent: nat, first: bool, returned: bool)
    ensures DumpItems(io, [], first, returned, indent) == "" && DumpLocal(io, [], first, indent) == ""
    ensures DumpGlobal(io, []) == "" && DumpSuperValues(io, []) == "" && forall b :: DumpSuperTables(io, b, []) == ""
  {}

  lemma ArrayText(io: Doubles, items: seq<Node>, indent: nat)
    ensures DumpValue(io, Array(items), indent) == "[" + DumpItems(io, items, true, false, indent) + "]"
  {}

  method DumpSeparator(ss: Stream, first: bool, returned: bool, indent: nat)
    modifies ss
    ensures ss.text == old(ss.text) + Separator(first, returned, indent)
  {
    if !first {
      ss.Put(", ");
      if returned {
        ss.Put("\n");
        NewlineIndent(ss, indent);
        Joined(old(ss.text), ", ", "\n", Spaces(indent + 1));
      }
    }
  }

  method NewlineIndent(ss: Stream, indent: nat)
    modifies ss
    ensures ss.text == old(ss.text) + Spaces(indent + 1)
  {
    for j := 0 to indent + 1
      invariant ss.text == old(ss.text) + Spaces(j)
    {
      ss.Put(" ");
      assert Spaces(j) + " " == Spaces(j + 1);
    }
  }

  lemma ItemsStep(io: Doubles, items: seq<Node>, i: nat, returned: bool, indent: nat)
    requires i < |items|
    ensures DumpItems(io, items[i..], i == 0, returned, indent) ==
      Separator(i == 0, returned, indent) + DumpValue(io, items[i], indent + 1)
      + DumpItems(io, items[i + 1..], false, returned || Breaks(items[i]), indent)
  {
    assert items[i..][1..] == items[i + 1..];
  }

  method DumpLocalDict(io: Doubles, ss: Stream, es: seq<Entry>, indent: nat)
    modifies ss
    ensures ss.text == old(ss.text) + DumpValue(io, Dict(es), indent)
    decreases es, 0
  {
    hide *;
    ss.Put("{");
    ghost var base := ss.text;
    ghost var done := "";
    assert base + "" == base && es[0..] == es;
    assert "" + DumpLocal(io, es, true, indent) == DumpLocal(io, es, true, indent);
    for i := 0 to |es|
      invariant ss.text == base + done
      invariant done + DumpLocal(io, es[i..], i == 0, indent) == DumpLocal(io, es, true, indent)
    {
      ghost var comma := if i == 0 then "" else ", ";
      if i != 0 { ss.Put(", "); } else { assert ss.text + "" == ss.text; }
      DumpEntry(io, ss, es[i], indent + |es[i].key| + 3);
      ghost var step := comma + Line(io, es[i], indent + |es[i].key| + 3);
      LocalStep(io, es, i, indent);
      Moved(done, step, DumpLocal(io, es[i + 1..], false, indent), base);
      Moved(base + done, comma, Line(io, es[i], indent + |es[i].key| + 3), "");
      done := done + step;
    }
    assert es[|es|..] == [];
    NothingDumped(io, indent, |es| == 0, false);
    assert done + "" == done;
    ss.Put("}");
    LocalText(io, es, indent);
    Joined(old(ss.text), "{", DumpLocal(io, es, true, indent), "}");
  }

  lemma LocalText(io: Doubles, es: seq<Entry>, indent: nat)
    ensures DumpValue(io, Dict(es), indent) == "{" + DumpLocal(io, es, true, indent) + "}"
  {}

  lemma LocalStep(io: Doubles, es: seq<Entry>, i: nat, indent: nat)
    requires i < |es|
    ensures DumpLocal(io, es[i..], i == 0, indent) ==
      ((if i == 0 then "" else ", ") + Line(io, es[i], indent + |es[i].key| + 3)) + DumpLocal(io, es[i + 1..], false, indent)
  {
    assert es[i..][1..] == es[i + 1..];
    Joined(if i == 0 then "" else ", ", es[i].key, " = ", DumpValue(io, es[i].value, indent + |es[i].key| + 3));
  }

  method DumpGlobalDict(io: Doubles, ss: Stream, es: seq<Entry>)
    modifies ss
    ensures ss.text == old(ss.text) + DumpGlobal(io, es)
  {
    hide *;
    ghost var base := ss.text;
    ghost var done := "";
    assert base + "" == base && es[0..] == es && "" + DumpGlobal(io, es) == DumpGlobal(io, es);
    for i := 0 to |es|
      invariant ss.text == base + done
      invariant done + DumpGlobal(io, es[i..]) == DumpGlobal(io, es)
    {
      ghost var line := Line(io, es[i], |es[i].key| + 3);
      DumpEntry(io, ss, es[i], |es[i].key| + 3);
      ss.Put("\n");
      GlobalStep(io, es, i);
      Moved(done, line + "\n", DumpGlobal(io, es[i + 1..]), base);
      Moved(base + done, line, "\n", "");
      done := done + (line + "\n");
    }
    assert es[|es|..] == [];
    NothingDumped(io, 0, true, false);
    assert done + "" == done;
  }

  lemma GlobalStep(io: Doubles, es: seq<Entry>, i: nat)
    requires i < |es|
    ensures DumpGlobal(io, es[i..]) == (Line(io, es[i], |es[i].key| + 3) + "\n") + DumpGlobal(io, es[i + 1..])
  {
    assert es[i..][1..] == es[i + 1..];
  }

  method AnyOthers(es: seq<Entry>) returns (others: bool)
    ensures others == HasOthers(es)
  {
    others := false;
    for i := 0 to |es|
      invariant !others && forall j :: 0 <= j < i ==> es[j].value.Dict?
    {
      if !es[i].value.Dict? { return true; }
    }
  }

  /** Direct values go to one stream and tables to another, which is appended last. */
  method DumpSuperDict(io: Doubles, ss: Stream, base: string, es: seq<Entry>)
    modifies ss
    ensures ss.text == old(ss.text) + DumpSuper(io, base, es)
    decreases es, 1
  {
    hide *;
    var inner := new Stream();
    var super := new Stream();
    assert es[0..] == es;
    assert "" + DumpSuperValues(io, es) == DumpSuperValues(io, es);
    assert "" + DumpSuperTables(io, base, es) == DumpSuperTables(io, base, es);
    for i := 0 to |es|
      invariant fresh(inner) && fresh(super) && inner != super && ss.text == old(ss.text)
      invariant super.text + DumpSuperValues(io, es[i..]) == DumpSuperValues(io, es)
      invariant inner.text + DumpSuperTables(io, base, es[i..]) == DumpSuperTables(io, base, es)
    {
      var e := es[i];
      ghost var values, tables := super.text, inner.text;
      SuperStep(io, base, es, i);
      if e.value.Dict? {
        DumpTable(io, inner, base, e.key, e.value.entries);
        Moved(tables, TableText(io, base, e.key, e.value.entries), DumpSuperTables(io, base, es[i + 1..]), "");
      } else {
        DumpEntry(io, super, e, 0);
        super.Put("\n");
        Moved(values, Line(io, e, 0) + "\n", DumpSuperValues(io, es[i + 1..]), "");
        Moved(values, Line(io, e, 0), "\n", "");
      }
    }
    assert es[|es|..] == [];
    NothingDumped(io, 0, true, false);
    assert super.text + "" == super.text && inner.text + "" == inner.text;
    ss.Put(super.text);
    ss.Put(inner.text);
    SuperText(io, base, es);
    Moved(old(ss.text), super.text, inner.text, "");
  }

  lemma SuperText(io: Doubles, base: string, es: seq<Entry>)
    ensures DumpSuper(io, base, es) == DumpSuperValues(io, es) + DumpSuperTables(io, base, es)
  {}

  lemma SuperStep(io: Doubles, base: string, es: seq<Entry>, i: nat)
    requires i < |es|
    ensures if es[i].value.Dict? then
        && DumpSuperValues(io, es[i..]) == DumpSuperValues(io, es[i + 1..])
        && DumpSuperTables(io, base, es[i..])
          == TableText(io, base, es[i].key, es[i].value.entries) + DumpSuperTables(io, base, es[i + 1..])
      else
        && DumpSuperValues(io, es[i..]) == (Line(io, es[i], 0) + "\n") + DumpSuperValues(io, es[i + 1..])
        && DumpSuperTables(io, base, es[i..]) == DumpSuperTables(io, base, es[i + 1..])
  {
    hide DumpValue, DumpGlobal, HasOthers;
    assert es[i..][1..] == es[i + 1..];
  }

  method DumpTable(io: Doubles, inner: Stream, base: string, key: string, es: seq<Entry>)
    modifies inner
    ensures inner.text == old(inner.text) + TableText(io, base, key, es)
    decreases es, 2
  {
    hide DumpSuper, DumpGlobal, HasOthers;
    var others := AnyOthers(es);
    if others {
      inner.Put("\n[");
      inner.Put(base + key);
      inner.Put("]\n");
      DumpGlobalDict(io, inner, es);
      TableJoined(old(inner.text), base, key, DumpGlobal(io, es));
    } else {
      DumpSuperDict(io, inner, base + key + ".", es);
    }
  }

  lemma TableJoined(text: string, base: string, key: string, body: string)
    ensures text + "\n[" + (base + key) + "]\n" + body == text + ("\n[" + base + key + "]\n" + body)
  {}

  /** The whole round: a tree comes back from the parser if it is restorable, and, as far as doubles and
      header keys are plain, only then. */
  method DumpAndParse(io: Doubles, root: seq<Entry>) returns (text: string, r: Outcome<Node>)
    ensures text == TomlText.Dump(io, root)
    ensures Restorable(io, root, true) ==> r == Done(Dict(root))
    ensures FloatsOk(io, Dict(root)) && PathsPlain(root, true) ==> (r == Done(Dict(root)) <==> Restorable(io, root, true))
  {
    hide *;
    var ss := new Stream();
    DumpSuperDict(io, ss, "", root);
    text := ss.text;
    DumpIsSuper(io, root);
    r := ParseText(io, text);
    if Restorable(io, root, true) { DumpedTreeIsReadBack(io, root); }
    if FloatsOk(io, Dict(root)) && PathsPlain(root, true) {
      TreeComesBackIff(io, root);
      NoRest(io, TomlText.Dump(io, root));
    }
  }

  lemma DumpIsSuper(io: Doubles, root: seq<Entry>)
    ensures "" + DumpSuper(io, "", root) == TomlText.Dump(io, root)
  {}
}
