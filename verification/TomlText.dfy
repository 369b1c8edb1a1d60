/** How the TOML printer writes a tree, and how its text is cut into words. */
module TomlText {
  import opened Options
  import opened ConfigTree
  import opened Numerals
  import T = Tokenizer
  import opened Lexer

  /** Printing and reading of doubles, which the model leaves to the C++ library. */
  datatype Doubles = Doubles(show: Double -> string, read: string -> Option<Double>)

  function Spaces(n: nat): (s: string)
    ensures |s| == n && forall i :: 0 <= i < n ==> s[i] == ' '
  {
    seq(n, _ => ' ')
  }

  predicate Breaks(n: Node) { n.Array? || n.Str? || n.Dict? }

  function DumpValue(io: Doubles, n: Node, indent: nat): string
    decreases n, 1
  {
    match n
    case Int(i) => IntText(i)
    case Float(f) => io.show(f)
    case Bool(b) => if b then "true" else "false"
    case Str(s) => "\"" + s + "\""
    case Array(items) => "[" + DumpItems(io, items, true, false, indent) + "]"
    case Dict(es) => "{" + DumpLocal(io, es, true, indent) + "}"
  }

  /** The items of an array; after a string, an array or a dict each one starts a line of its own. */
  function DumpItems(io: Doubles, items: seq<Node>, first: bool, returned: bool, indent: nat): string
    decreases items, 0
  {
    if items == [] then ""
    else
      Separator(first, returned, indent) + DumpValue(io, items[0], indent + 1)
      + DumpItems(io, items[1..], false, returned || Breaks(items[0]), indent)
  }

  function Separator(first: bool, returned: bool, indent: nat): string {
    if first then "" else if returned then ", " + "\n" + Spaces(indent + 1) else ", "
  }

  /** The entries of a dict on one line. */
  function DumpLocal(io: Doubles, es: seq<Entry>, first: bool, indent: nat): string
    decreases es, 0
  {
    if es == [] then ""
    else
      (if first then "" else ", ") + es[0].key + " = " + DumpValue(io, es[0].value, indent + |es[0].key| + 3)
      + DumpLocal(io, es[1..], false, indent)
  }

  /** The entries of a table, a line each. */
  function DumpGlobal(io: Doubles, es: seq<Entry>): string {
    if es == [] then ""
    else es[0].key + " = " + DumpValue(io, es[0].value, |es[0].key| + 3) + "\n" + DumpGlobal(io, es[1..])
  }

  /** A dict with a direct value gets a table header of its own; one of dicts only becomes a prefix. */
  predicate HasOthers(es: seq<Entry>) {
    exists i :: 0 <= i < |es| && !es[i].value.Dict?
  }

  /** The part of the text that comes first: the direct values. */
  function DumpSuperValues(io: Doubles, es: seq<Entry>): string {
    if es == [] then ""
    else if es[0].value.Dict? then DumpSuperValues(io, es[1..])
    else es[0].key + " = " + DumpValue(io, es[0].value, 0) + "\n" + DumpSuperValues(io, es[1..])
  }

  /** The part that comes last: a table for each dict. */
  function DumpSuperTables(io: Doubles, base: string, es: seq<Entry>): string
    decreases es, 0
  {
    if es == [] then ""
    else if es[0].value.Dict? then
      var inner := es[0].value.entries;
      (if HasOthers(inner) then "\n[" + base + es[0].key + "]\n" + DumpGlobal(io, inner)
       else DumpSuper(io, base + es[0].key + ".", inner))
      + DumpSuperTables(io, base, es[1..])
    else DumpSuperTables(io, base, es[1..])
  }

  function DumpSuper(io: Doubles, base: string, es: seq<Entry>): string
    decreases es, 1
  {
    DumpSuperValues(io, es) + DumpSuperTables(io, base, es)
  }

  /** What a dict adds to the tables. */
  function TableText(io: Doubles, base: string, key: string, inner: seq<Entry>): string {
    if HasOthers(inner) then "\n[" + base + key + "]\n" + DumpGlobal(io, inner)
    else DumpSuper(io, base + key + ".", inner)
  }

  /** The whole text of a tree whose root is a dict. */
  function Dump(io: Doubles, root: seq<Entry>): string {
    DumpSuper(io, "", root)
  }

  // ---------------------------------------------------------------- the layout of a text

  lemma ItemsLayout(io: Doubles, first: Node, more: seq<Node>, indent: nat)
    ensures DumpItems(io, [first] + more, true, false, indent)
      == DumpValue(io, first, indent + 1) + DumpItems(io, more, false, Breaks(first), indent)
  {
    var items := [first] + more;
    assert items[1..] == more;
  }

  lemma LastItemLayout(io: Doubles, last: Node, returned: bool, indent: nat)
    ensures DumpItems(io, [last], false, returned, indent)
      == (if returned then ", \n" + Spaces(indent + 1) else ", ") + DumpValue(io, last, indent + 1)
  {
    hide DumpValue;
    assert [last][1..] == [];
    assert ", " + "\n" == ", \n";
    assert DumpItems(io, [last][1..], false, returned || Breaks(last), indent) == "";
  }

  lemma TwoItems(io: Doubles, a: Node, b: Node, indent: nat)
    ensures DumpValue(io, Array([a, b]), indent) == "[" + (DumpValue(io, a, indent + 1)
      + (if Breaks(a) then ", \n" + Spaces(indent + 1) else ", ") + DumpValue(io, b, indent + 1)) + "]"
  {
    hide DumpItems, Spaces;
    assert [a] + [b] == [a, b];
    ItemsLayout(io, a, [b], indent);
    LastItemLayout(io, b, Breaks(a), indent);
    var x, y, z := DumpValue(io, a, indent + 1), if Breaks(a) then ", \n" + Spaces(indent + 1) else ", ", DumpValue(io, b, indent + 1);
    assert x + (y + z) == x + y + z;
  }

  /** A list goes on in a line of its own after a string, indented under its first item. */
  lemma ArrayLayout(io: Doubles)
    ensures DumpValue(io, Array([Str("x"), Bool(true)]), 4) == "[\"x\", \n     true]"
    ensures DumpValue(io, Array([Bool(false), Bool(true)]), 4) == "[false, true]"
    ensures DumpValue(io, Str("y"), 0) == "\"y\""
  {
    hide DumpItems;
    TwoItems(io, Str("x"), Bool(true), 4);
    TwoItems(io, Bool(false), Bool(true), 4);
    assert Spaces(5) == "     ";
    assert DumpValue(io, Str("x"), 5) == "\"x\"";
  }

  lemma TwoLines(io: Doubles, a: Entry, b: Entry)
    ensures DumpGlobal(io, [a, b])
      == (a.key + " = " + DumpValue(io, a.value, |a.key| + 3) + "\n") + (b.key + " = " + DumpValue(io, b.value, |b.key| + 3) + "\n")
  {
    hide DumpValue;
    assert [a, b][1..] == [b] && [b][1..] == [];
    assert DumpGlobal(io, []) == "";
    var line := b.key + " = " + DumpValue(io, b.value, |b.key| + 3) + "\n";
    assert DumpGlobal(io, [b]) == line + "" == line;
  }

  lemma TableThenValue(io: Doubles, key: string, inner: seq<Entry>, last: Entry)
    requires HasOthers(inner) && !last.value.Dict?
    ensures Dump(io, [Entry(key, Dict(inner)), last])
      == (last.key + " = " + DumpValue(io, last.value, 0) + "\n") + ("\n[" + key + "]\n" + DumpGlobal(io, inner))
  {
    hide DumpValue, DumpGlobal, HasOthers;
    var root := [Entry(key, Dict(inner)), last];
    assert root[1..] == [last] && [last][1..] == [];
    var line, table := last.key + " = " + DumpValue(io, last.value, 0) + "\n", "\n[" + "" + key + "]\n" + DumpGlobal(io, inner);
    assert DumpSuperValues(io, []) == "" && DumpSuperTables(io, "", []) == "";
    assert DumpSuperValues(io, [last]) == line + "" == line;
    assert DumpSuperTables(io, "", [last]) == "";
    assert DumpSuperTables(io, "", root) == table + "" == table;
  }

  lemma ArrayIsOther(es: seq<Entry>, i: nat)
    requires i < |es| && es[i].value.Array?
    ensures HasOthers(es)
  {}

  /** Values first, each in a line; then a table under its name after an empty line. */
  lemma TextLayout(io: Doubles)
    ensures var k := Dict([Entry("p", Bool(true)), Entry("q", Bool(false))]);
      var m := Array([Str("x"), Bool(true)]);
      Dump(io, [Entry("a", Dict([Entry("k", k), Entry("m", m)])), Entry("b", Str("y"))])
      == ("b" + " = " + "\"y\"" + "\n")
        + ("\n[" + "a" + "]\n"
          + (("k" + " = " + "{p = true, q = false}" + "\n") + ("m" + " = " + "[\"x\", \n     true]" + "\n")))
  {
    var k := Dict([Entry("p", Bool(true)), Entry("q", Bool(false))]);
    var m := Array([Str("x"), Bool(true)]);
    var inner := [Entry("k", k), Entry("m", m)];
    hide *;
    InlineLayout(io);
    ArrayLayout(io);
    TwoLines(io, inner[0], inner[1]);
    ArrayIsOther(inner, 1);
    TableThenValue(io, "a", inner, Entry("b", Str("y")));
  }

  lemma InlineLayout(io: Doubles)
    ensures DumpValue(io, Dict([Entry("p", Bool(true)), Entry("q", Bool(false))]), 4) == "{p = true, q = false}"
  {
    var es := [Entry("p", Bool(true)), Entry("q", Bool(false))];
    assert es[1..] == [Entry("q", Bool(false))];
    assert es[1..][1..] == [];
    assert DumpLocal(io, [], false, 4) == "";
    assert DumpLocal(io, es[1..], false, 4) == ", " + "q" + " = " + "false" + "";
  }
}
