/**
 The writer as the program runs it: text appended to a memory stream by
 loops over characters, items and members (tools/src/toml.c:996-1158).
 */
module TomlWriter {
  import opened Wrappers
  import opened Decimal
  import opened TomlTree
  import opened TomlForm
  import opened TomlText

  method IsBareSafe(s: string) returns (b: bool)
    ensures b == BareSafe(s)
  {
    if s == [] {
      return false;
    }
    for i := 0 to |s|
      invariant forall j :: 0 <= j < i ==> IsBare(s[j])
    {
      if !IsBare(s[i]) {
        return false;
      }
    }
    b := true;
  }

  class Writer {
    var out: string

    constructor ()
      ensures out == []
    {
      out := [];
    }

    method Put(s: string)
      modifies this
      ensures out == old(out) + s
    {
      out := out + s;
    }

    method DumpString(s: string)
      modifies this
      ensures out == old(out) + StringText(s)
    {
      hide Escape;
      Put("\"");
      for i := 0 to |s|
        invariant out + EscapeAll(s[i..]) == old(out) + ("\"" + EscapeAll(s))
      {
        assert s[i..][1..] == s[i + 1..];
        Put(Escape(s[i]));
      }
      assert s[|s|..] == [] && out + EscapeAll([]) == out;
      Put("\"");
    }

    method DumpKey(s: string)
      modifies this
      ensures out == old(out) + KeyText(s)
    {
      var bare := IsBareSafe(s);
      if bare {
        Put(s);
      } else {
        DumpString(s);
      }
    }

    method DumpItems(items: seq<string>)
      modifies this
      ensures out == old(out) + ItemsText(items)
    {
      hide StringText;
      for i := 0 to |items|
        invariant i == 0 ==> out == old(out)
        invariant i > 0 ==>
                    out + (if i == |items| then [] else ", " + ItemsText(items[i..])) == old(out) + ItemsText(items)
      {
        assert items[i..][1..] == items[i + 1..];
        assert i == 0 ==> items[i..] == items;
        if i > 0 {
          Put(", ");
        }
        DumpString(items[i]);
      }
    }

    method DumpValue(v: Value)
      requires !v.Table?
      modifies this
      ensures out == old(out) + ValueText(v)
    {
      hide StringText, ItemsText, IntText, Format15;
      match v {
        case Str(s) => DumpString(s);
        case Int(i) => Put(IntText(i));
        case Float(d) => Put(Format15(d));
        case Bool(b) => Put(if b then "true" else "false");
        case Arr(items) =>
          Put("[");
          DumpItems(items);
          Put("]");
      }
    }

    method DumpPath(path: seq<string>)
      modifies this
      ensures out == old(out) + PathText(path)
    {
      hide KeyText;
      for i := 0 to |path|
        invariant i == 0 ==> out == old(out)
        invariant i > 0 ==> out + (if i == |path| then [] else "." + PathText(path[i..])) == old(out) + PathText(path)
      {
        assert path[i..][1..] == path[i + 1..];
        assert i == 0 ==> path[i..] == path;
        if i > 0 {
          Put(".");
        }
        DumpKey(path[i]);
      }
    }

    method DumpScalars(ms: seq<Member>) returns (needNl: bool)
      modifies this
      ensures out == old(out) + ScalarLines(ms) && needNl == HasScalar(ms)
    {
      hide Line;
      needNl := false;
      assert ms[0..] == ms;
      for i := 0 to |ms|
        invariant out + ScalarLines(ms[i..]) == old(out) + ScalarLines(ms)
        invariant needNl == exists j :: 0 <= j < i && !ms[j].value.Table?
      {
        assert ms[i..][1..] == ms[i + 1..];
        if ms[i].value.Table? {
          continue;
        }
        DumpLine(ms[i]);
        needNl := true;
      }
      assert ms[|ms|..] == [] && out + ScalarLines([]) == out;
    }

    method DumpLine(m: Member)
      requires !m.value.Table?
      modifies this
      ensures out == old(out) + Line(m)
    {
      hide KeyText, ValueText;
      DumpKey(m.key);
      Put(" = ");
      DumpValue(m.value);
      Put("\n");
    }

    /** Scalars first, then every sub-table behind its header; fails when a
        header path would not fit the buffer of 64 segments. */
    method DumpTable(ms: seq<Member>, path: seq<string>) returns (ok: bool)
      requires |path| < MAX_DEPTH
      modifies this
      ensures ok == (|path| + Height(ms) < MAX_DEPTH)
      ensures ok ==> out == old(out) + TableText(ms, path)
      decreases ms
    {
      hide ScalarLines, Header;
      var needNl := DumpScalars(ms);
      ghost var start, first := out, needNl;
      assert ms[0..] == ms;
      for i := 0 to |ms|
        invariant out + TableBlocks(ms[i..], path, needNl) == start + TableBlocks(ms, path, first)
        invariant |path| + Height(ms[i..]) < MAX_DEPTH <==> |path| + Height(ms) < MAX_DEPTH
      {
        assert ms[i..][1..] == ms[i + 1..];
        if !ms[i].value.Table? {
          continue;
        }
        if |path| >= MAX_DEPTH - 1 {
          return false;
        }
        ghost var before := out;
        var here := path + [ms[i].key];
        DumpHeader(here, needNl);
        ok := DumpTable(ms[i].value.members, here);
        if !ok {
          return false;
        }
        BlockAppended(before, ms[i..], path, needNl, out);
        needNl := true;
      }
      assert ms[|ms|..] == [] && out + TableBlocks([], path, needNl) == out;
      ok := true;
    }

    lemma BlockAppended(before: string, ms: seq<Member>, path: seq<string>, needNl: bool, after: string)
      requires ms != [] && ms[0].value.Table?
      requires var here := path + [ms[0].key];
               after == before + Gap(needNl) + Header(here) + TableText(ms[0].value.members, here)
      ensures after + TableBlocks(ms[1..], path, true) == before + TableBlocks(ms, path, needNl)
    {
      hide Gap, Header, TableText;
    }

    method DumpHeader(path: seq<string>, needNl: bool)
      modifies this
      ensures out == old(out) + Gap(needNl) + Header(path)
    {
      hide PathText;
      if needNl {
        Put("\n");
      }
      Put("[");
      DumpPath(path);
      Put("]\n");
    }
  }

  /** The writer returns the document of the tree, or nothing when it nests
      too deep. */
  method Dump(ms: seq<Member>) returns (r: Option<string>)
    ensures r == Dumps(ms)
  {
    hide TableText, Height;
    var w := new Writer();
    var ok := w.DumpTable(ms, []);
    if !ok {
      return None;
    }
    assert [] + TableText(ms, []) == TableText(ms, []);
    r := Some(w.out);
  }
}
