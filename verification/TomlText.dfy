/**
 The text the writer produces for a tree (tools/src/toml.c:996-1158), as
 functions of the tree.
 */
module TomlText {
  import opened Wrappers
  import opened Decimal
  import opened TomlTree
  import opened TomlForm

  const BACKSPACE: char := 8 as char
  const FORMFEED: char := 12 as char

  predicate IsAlnum(c: char) { '0' <= c <= '9' || 'A' <= c <= 'Z' || 'a' <= c <= 'z' }

  predicate IsBare(c: char) { IsAlnum(c) || c == '_' || c == '-' }

  predicate BareSafe(s: string) { s != [] && forall i :: 0 <= i < |s| ==> IsBare(s[i]) }

  function HexDigit(d: nat): char
    requires d < 16
  {
    if d < 10 then ('0' as int + d) as char else ('A' as int + d - 10) as char
  }

  /** One character of a basic string. */
  function Escape(c: char): (t: string)
    ensures t != []
  {
    if c == '"' then "\\\""
    else if c == '\\' then "\\\\"
    else if c == '\n' then "\\n"
    else if c == '\t' then "\\t"
    else if c == '\r' then "\\r"
    else if c == BACKSPACE then "\\b"
    else if c == FORMFEED then "\\f"
    else if (c as int) < 0x20 then "\\u00" + [HexDigit(c as int / 16), HexDigit(c as int % 16)]
    else [c]
  }

  function EscapeAll(s: string): string {
    if s == [] then [] else Escape(s[0]) + EscapeAll(s[1..])
  }

  function StringText(s: string): string { "\"" + (EscapeAll(s) + "\"") }

  function KeyText(s: string): string { if BareSafe(s) then s else StringText(s) }

  function IntText(i: int): string { Sign(i < 0) + Digits(if i < 0 then -i else i) }

  function ItemsText(items: seq<string>): string {
    if items == [] then []
    else if |items| == 1 then StringText(items[0])
    else StringText(items[0]) + (", " + ItemsText(items[1..]))
  }

  function ValueText(v: Value): string
    requires !v.Table?
  {
    match v
    case Str(s) => StringText(s)
    case Int(i) => IntText(i)
    case Float(d) => Format15(d)
    case Bool(b) => if b then "true" else "false"
    case Arr(items) => "[" + (ItemsText(items) + "]")
  }

  function Line(m: Member): string
    requires !m.value.Table?
  {
    KeyText(m.key) + (" = " + (ValueText(m.value) + "\n"))
  }

  function ScalarLines(ms: seq<Member>): string {
    if ms == [] then []
    else (if ms[0].value.Table? then [] else Line(ms[0])) + ScalarLines(ms[1..])
  }

  function PathText(path: seq<string>): string {
    if path == [] then []
    else if |path| == 1 then KeyText(path[0])
    else KeyText(path[0]) + ("." + PathText(path[1..]))
  }

  function Header(path: seq<string>): string { "[" + (PathText(path) + "]\n") }

  function Gap(needNl: bool): string { if needNl then "\n" else [] }

  predicate HasScalar(ms: seq<Member>) { exists i :: 0 <= i < |ms| && !ms[i].value.Table? }

  /** The sub-tables of the table at `path`, each behind its header. */
  function TableBlocks(ms: seq<Member>, path: seq<string>, needNl: bool): string
    decreases ms, 0
  {
    if ms == [] then []
    else if ms[0].value.Table? then
      Gap(needNl) + (Header(path + [ms[0].key]) +
      (TableText(ms[0].value.members, path + [ms[0].key]) + TableBlocks(ms[1..], path, true)))
    else TableBlocks(ms[1..], path, needNl)
  }

  function TableText(ms: seq<Member>, path: seq<string>): string
    decreases ms, 1
  {
    ScalarLines(ms) + TableBlocks(ms, path, HasScalar(ms))
  }

  const MAX_DEPTH: nat := 64

  /** The document of a tree; none when tables nest deeper than the writer's
      path buffer. */
  function Dumps(ms: seq<Member>): Option<string> {
    if Height(ms) < MAX_DEPTH then Some(TableText(ms, [])) else None
  }
}
