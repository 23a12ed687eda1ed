// class ini_parser: the loops over lines, entries and characters.
module IniParser {
  import opened Basics
  import opened Ini
  import opened IniFile

  // ----- Character loops ---------------------------------------------------

  method TrimText(str: string) returns (r: string)
    ensures r == Trim(str)
  {
    var start, end := 0, |str|;
    while start < end && IsSpace(str[start])
      invariant start <= end == |str|
      invariant TrimLeft(str[start..]) == TrimLeft(str)
    {
      assert str[start..][1..] == str[start + 1..];
      start := start + 1;
    }
    assert TrimLeft(str) == str[start..] == str[start..end];
    while end > start && IsSpace(str[end - 1])
      invariant start <= end <= |str|
      invariant TrimRight(str[start..end]) == Trim(str)
    {
      assert str[start..end][..end - start - 1] == str[start..end - 1];
      end := end - 1;
    }
    r := str[start..end];
  }

  method LowerText(str: string) returns (result: string)
    ensures result == ToLower(str)
    ensures |result| == |str|
    ensures forall i :: 0 <= i < |str| ==>
              result[i] == if 'A' <= str[i] <= 'Z' then (str[i] as int + 32) as char else str[i]
  {
    result := str;
    for i := 0 to |str|
      invariant |result| == |str|
      invariant forall k :: 0 <= k < i ==> result[k] == Lower(str[k])
      invariant forall k :: i <= k < |str| ==> result[k] == str[k]
    {
      result := result[i := Lower(result[i])];
    }
  }

  method QuotingNeeded(str: string) returns (b: bool)
    ensures b <==> NeedsQuoting(str)
    ensures b <==> str == "" || exists c :: c in str && (c as int in {32, 9, 10, 11, 12, 13} || c in "#;=:[]")
  {
    if str == [] {
      return true;
    }
    for i := 0 to |str|
      invariant forall k :: 0 <= k < i ==> !IsSpecial(str[k])
    {
      if IsSpecial(str[i]) {
        return true;
      }
    }
    return false;
  }

  lemma EscapeStep(before: string, s: string)
    requires s != []
    ensures before + Escape(s) == before + EscapeChar(s[0]) + Escape(s[1..])
  {
    hide EscapeChar;
  }

  method EscapeText(str: string) returns (result: string)
    ensures result == Escape(str)
  {
    hide Escape, EscapeChar;
    result := "";
    for i := 0 to |str|
      invariant result + Escape(str[i..]) == Escape(str)
    {
      assert str[i..][1..] == str[i + 1..];
      EscapeStep(result, str[i..]);
      result := result + EscapeChar(str[i]);
    }
    assert str[|str|..] == [];
    assert Escape([]) == [] by {
      EscapeNothing();
    }
  }

  lemma EscapeNothing()
    ensures Escape([]) == []
  {
  }

  // write_key_value
  method KeyValueText(lib: Library, key: string, value: Value) returns (text: string)
    ensures text == KeyLine(key, Written(lib, value)) + "\n"
    ensures value == Null ==> text == key + " = null\n"
    ensures value.Bool? ==> text == key + (if value.b then " = true\n" else " = false\n")
    ensures value.Int? ==> text == key + " = " + PrintInt(value.i) + "\n"
    ensures value.Double? ==> text == key + " = " + lib.show(value.v) + "\n"
    ensures value.Str? ==>
              text == key + " = " + (if NeedsQuoting(value.s) then "\"" + Escape(value.s) + "\"" else value.s) + "\n"
  {
    text := key + " = ";
    match value
    case Str(s) =>
      var quote := QuotingNeeded(s);
      if quote {
        var e := EscapeText(s);
        text := text + ("\"" + e + "\"");
      } else {
        text := text + s;
      }
      text := text + "\n";
    case Int(i) => text := text + PrintInt(i) + "\n";
    case Double(d) => text := text + lib.show(d) + "\n";
    case Bool(b) => text := text + (if b then "true" else "false") + "\n";
    case Null => text := text + "null" + "\n";
  }

  // The map holds each section's entries, in the order of the list.
  ghost predicate Groups(sections: map<string, seq<Pair>>, es: seq<Pair>) {
    && (forall s :: s in sections <==> exists e :: e in es && SectionOf(e.0) == s)
    && (forall s :: s in sections ==> sections[s] == Block(es, s))
  }

  lemma NoSections(lib: Library, es: seq<Pair>, before: string)
    ensures before == before + Unlines(SectionLines(lib, es, []))
  {
  }

  lemma SavedFrom(lib: Library, m: Data, sections: map<string, seq<Pair>>, es: seq<Pair>, order: seq<string>)
    requires Groups(sections, es)
    requires forall e :: e in es ==> e.0 in m && m[e.0] == e.1
    requires forall k :: k in m ==> (k, m[k]) in es
    requires forall s :: s in order <==> s in sections && s != []
    requires forall i, j :: 0 <= i < j < |es| ==> es[i].0 != es[j].0
    requires forall i, j :: 0 <= i < j < |order| ==> order[i] != order[j]
    ensures IsSaved(lib, m, Unlines(GlobalLines(lib, es)) + Unlines(SectionLines(lib, es, order)))
  {
    hide Block, SectionOf, Unlines, SectionLines, GlobalLines;
    assert Lists(es, order, m);
    UnlinesConcat(GlobalLines(lib, es), SectionLines(lib, es, order));
  }

  lemma BlockOfNothing()
    ensures Groups(map[], [])
  {
  }

  lemma {:induction false} BlockSnoc(es: seq<Pair>, e: Pair, section: string)
    ensures Block(es + [e], section)
         == Block(es, section) + if SectionOf(e.0) == section then [(NameOf(e.0), e.1)] else []
  {
    hide SectionOf, NameOf;
    if es == [] {
      assert [] + [e] == [e] && [e][1..] == [];
    } else {
      assert (es + [e])[0] == es[0] && (es + [e])[1..] == es[1..] + [e];
      BlockSnoc(es[1..], e, section);
      var first := if SectionOf(es[0].0) == section then [(NameOf(es[0].0), es[0].1)] else [];
      var last := if SectionOf(e.0) == section then [(NameOf(e.0), e.1)] else [];
      assert first + (Block(es[1..], section) + last) == (first + Block(es[1..], section)) + last;
    }
  }

  lemma {:induction false} EmptyBlock(es: seq<Pair>, section: string)
    requires forall e :: e in es ==> SectionOf(e.0) != section
    ensures Block(es, section) == []
  {
    hide SectionOf, NameOf;
    if es == [] {
    } else {
      assert es[0] in es;
      EmptyBlock(es[1..], section);
    }
  }

  lemma GroupsSnoc(sections: map<string, seq<Pair>>, es: seq<Pair>, e: Pair)
    requires Groups(sections, es)
    ensures var s := SectionOf(e.0);
            var block := (if s in sections then sections[s] else []) + [(NameOf(e.0), e.1)];
            Groups(sections[s := block], es + [e])
  {
    hide SectionOf, NameOf, Block;
    var s := SectionOf(e.0);
    var block := (if s in sections then sections[s] else []) + [(NameOf(e.0), e.1)];
    if s !in sections {
      EmptyBlock(es, s);
    }
    forall t | t in sections[s := block] ensures sections[s := block][t] == Block(es + [e], t) {
      BlockSnoc(es, e, t);
    }
    assert forall x :: x in es + [e] <==> x in es || x == e;
  }

  lemma GlobalText(lib: Library, es: seq<Pair>, block: seq<Pair>)
    requires block == Block(es, [])
    ensures Unlines(GlobalLines(lib, es)) == if block == [] then "" else Unlines(BlockLines(lib, block)) + "\n"
  {
    hide Block, BlockLines;
    if block != [] {
      UnlinesConcat(BlockLines(lib, block), [""]);
      OneEmptyLine();
    }
  }

  lemma OneEmptyLine()
    ensures Unlines([""]) == "\n"
  {
    assert [""][1..] == [];
  }

  lemma {:induction false} SectionLinesSnoc(lib: Library, es: seq<Pair>, order: seq<string>, s: string)
    ensures SectionLines(lib, es, order + [s])
         == SectionLines(lib, es, order) + ([HeaderLine(s)] + BlockLines(lib, Block(es, s)) + [""])
  {
    hide Block, BlockLines, HeaderLine;
    if order == [] {
      assert [s][1..] == [];
    } else {
      assert (order + [s])[1..] == order[1..] + [s];
      SectionLinesSnoc(lib, es, order[1..], s);
    }
  }

  lemma SectionText(lib: Library, es: seq<Pair>, order: seq<string>, s: string, before: string)
    ensures before + Unlines(SectionLines(lib, es, order + [s]))
         == before + Unlines(SectionLines(lib, es, order))
            + ("[" + s + "]\n") + Unlines(BlockLines(lib, Block(es, s))) + "\n"
  {
    hide Block, BlockLines, SectionLines, Unlines;
    SectionLinesSnoc(lib, es, order, s);
    var lines := BlockLines(lib, Block(es, s));
    UnlinesConcat(SectionLines(lib, es, order), [HeaderLine(s)] + lines + [""]);
    UnlinesConcat([HeaderLine(s)] + lines, [""]);
    UnlinesConcat([HeaderLine(s)], lines);
    OneEmptyLine();
    OneLine(HeaderLine(s));
    assert HeaderLine(s) + "\n" == "[" + s + "]\n";
  }

  lemma OneLine(l: string)
    ensures Unlines([l]) == l + "\n"
  {
    assert [l][1..] == [];
  }

  lemma GetLineShorter(text: string)
    requires text != []
    ensures |GetLine(text).1| < |text|
    ensures Lines(text) == [GetLine(text).0] + Lines(GetLine(text).1)
  {
  }

  lemma NoBlock(lib: Library, block: seq<Pair>)
    requires block == []
    ensures Unlines(BlockLines(lib, block)) == ""
  {
  }

  lemma BlockStep(lib: Library, block: seq<Pair>)
    requires block != []
    ensures Unlines(BlockLines(lib, block))
         == KeyLine(block[0].0, Written(lib, block[0].1)) + "\n" + Unlines(BlockLines(lib, block[1..]))
  {
    hide KeyLine, Written;
    var l := KeyLine(block[0].0, Written(lib, block[0].1));
    assert BlockLines(lib, block)[1..] == BlockLines(lib, block[1..]);
  }

  // ----- The parser object -------------------------------------------------

  datatype Outcome = Done | IoError | Malformed(line: nat, text: string)

  class Parser {
    const lib: Library
    var data: Data

    constructor (lib: Library)
      ensures this.lib == lib && data == map[]
    {
      this.lib := lib;
      data := map[];
    }

    // load: `source` is the file's text, if it opens.
    method LoadFrom(source: Option<string>, strategy: Strategy) returns (r: Outcome)
      modifies this
      ensures source.None? ==> r == IoError && data == old(data)
      ensures source.Some? ==>
                var l := Load(lib, old(data), source.value, strategy);
                && (l.Loaded? ==> r == Done && data == l.data)
                && (l.ParseError? ==> r == Malformed(l.line, l.text) && data == l.data)
                && (l.Loaded? || l.ParseError?)
    {
      if source.None? {
        return IoError;
      }
      var backup: Data := map[];
      if strategy == Preserve {
        backup := data;
      } else {
        data := map[];
      }
      LoadFailsAtFirstBad(lib, backup, Loading(data, []), Lines(source.value), 0);
      r := LoadAll(backup, source.value);
    }

    // The getline loop.
    method LoadAll(backup: Data, text: string) returns (r: Outcome)
      modifies this
      ensures var l := LoadLines(lib, backup, Loading(old(data), []), Lines(text), 0);
              && (l.Loaded? ==> r == Done && data == l.data)
              && (l.ParseError? ==> r == Malformed(l.line, l.text) && data == l.data)
    {
      hide Classify, Step, Trim, GetLine;
      var rest, section, lineNumber := text, "", 0;
      ghost var whole := LoadLines(lib, backup, Loading(data, []), Lines(text), 0);
      while rest != []
        invariant LoadLines(lib, backup, Loading(data, section), Lines(rest), lineNumber) == whole
        decreases |rest|
      {
        var line, tail := GetLine(rest).0, GetLine(rest).1;
        assert ([line] + Lines(tail))[1..] == Lines(tail);
        lineNumber := lineNumber + 1;
        ghost var st := Loading(data, section);
        var bad;
        bad, section := LoadLine(backup, line, section);
        if bad {
          var t := TrimText(line);
          return Malformed(lineNumber, t);
        }
        assert Loading(data, section) == Step(lib, backup, st, Classify(line));
        GetLineShorter(rest);
        rest := tail;
      }
      return Done;
    }

    // One turn of the loop.
    method LoadLine(backup: Data, line: string, currentSection: string) returns (bad: bool, section: string)
      modifies this
      ensures bad <==> Classify(line) == Bad
      ensures bad ==> data == old(data)
      ensures !bad ==> Loading(data, section) == Step(lib, backup, Loading(old(data), currentSection), Classify(line))
    {
      hide KeyValue, SectionHeader, ParseValue, Trim;
      section := currentSection;
      var trimmed := TrimText(line);
      if trimmed == [] || IsComment(trimmed) {
        return false, section;
      }
      var header := SectionHeader(trimmed);
      if header.Some? {
        return false, header.value;
      }
      var kv := KeyValue(trimmed);
      if kv.None? {
        return true, section;
      }
      var key := FullKey(section, kv.value.0);
      if key in backup {
        data := data[key := backup[key]];
      } else {
        data := data[key := ParseValue(lib, kv.value.1)];
      }
      return false, section;
    }

    // The entries of a block, in order.
    method WriteBlock(block: seq<Pair>) returns (text: string)
      ensures text == Unlines(BlockLines(lib, block))
    {
      hide KeyLine, Written, Unlines, BlockLines;
      text := "";
      assert block[0..] == block;
      for i := 0 to |block|
        invariant text + Unlines(BlockLines(lib, block[i..])) == Unlines(BlockLines(lib, block))
      {
        var t := KeyValueText(lib, block[i].0, block[i].1);
        BlockStep(lib, block[i..]);
        assert block[i..][1..] == block[i + 1..];
        ghost var rest := Unlines(BlockLines(lib, block[i + 1..]));
        JoinText(text, t, rest);
        text := text + t;
      }
      NoBlock(lib, block[|block|..]);
    }

    // save: into a file that opens or not.
    method Save(opens: bool) returns (file: Option<string>)
      ensures file.Some? <==> opens
      ensures opens ==> IsSaved(lib, data, file.value)
    {
      if !opens {
        return None;
      }
      hide IsSaved, Groups, Unlines, SectionLines, GlobalLines;
      ghost var es, order;
      var sections, text;
      sections, es := GroupKeys();
      text := WriteGlobals(sections, es);
      text, order := WriteSections(sections, es, text);
      SavedFrom(lib, data, sections, es, order);
      return Some(text);
    }

    method WriteGlobals(sections: map<string, seq<Pair>>, ghost es: seq<Pair>) returns (text: string)
      requires Groups(sections, es)
      ensures text == Unlines(GlobalLines(lib, es))
    {
      var none := "";
      GlobalText(lib, es, Block(es, none));
      if none !in sections {
        EmptyBlock(es, none);
      }
      hide Block, Unlines, SectionOf, GlobalLines, BlockLines;
      text := "";
      if none in sections && sections[none] != [] {
        var block := WriteBlock(sections[none]);
        text := block + "\n";
      }
    }

    // Entries by section; std::map goes through them in some order.
    method GroupKeys() returns (sections: map<string, seq<Pair>>, ghost es: seq<Pair>)
      ensures forall e :: e in es ==> e.0 in data && data[e.0] == e.1
      ensures forall k :: k in data ==> (k, data[k]) in es
      ensures forall i, j :: 0 <= i < j < |es| ==> es[i].0 != es[j].0
      ensures Groups(sections, es)
    {
      hide Block, SectionOf, NameOf;
      sections, es := map[], [];
      BlockOfNothing();
      var todo := data.Keys;
      while todo != {}
        invariant todo <= data.Keys
        invariant forall e :: e in es ==> e.0 in data && data[e.0] == e.1
        invariant forall k :: k in data && k !in todo ==> (k, data[k]) in es
        invariant forall e :: e in es ==> e.0 !in todo
        invariant forall i, j :: 0 <= i < j < |es| ==> es[i].0 != es[j].0
        invariant Groups(sections, es)
        decreases |todo|
      {
        HasMember(todo);
        var k :| k in todo;
        todo := todo - {k};
        var section, entry := SectionOf(k), (NameOf(k), data[k]);
        GroupsSnoc(sections, es, (k, data[k]));
        sections := sections[section := (if section in sections then sections[section] else []) + [entry]];
        es := es + [(k, data[k])];
      }
    }

    // All sections but the nameless one, in some order.
    method WriteSections(sections: map<string, seq<Pair>>, ghost es: seq<Pair>, before: string)
      returns (text: string, ghost order: seq<string>)
      requires Groups(sections, es)
      ensures text == before + Unlines(SectionLines(lib, es, order))
      ensures forall s :: s in order <==> s in sections && s != ""
      ensures forall i, j :: 0 <= i < j < |order| ==> order[i] != order[j]
    {
      hide Block, SectionOf, NameOf, BlockLines, SectionLines, Unlines;
      NoSections(lib, es, before);
      text, order := before, [];
      var todo := sections.Keys - {""};
      while todo != {}
        invariant "" !in todo && todo <= sections.Keys
        invariant forall s :: s in order <==> s in sections && s != "" && s !in todo
        invariant forall i, j :: 0 <= i < j < |order| ==> order[i] != order[j]
        invariant text == before + Unlines(SectionLines(lib, es, order))
        decreases |todo|
      {
        HasMember(todo);
        var s :| s in todo;
        todo := todo - {s};
        var block := WriteBlock(sections[s]);
        SectionText(lib, es, order, s, before);
        text := text + ("[" + s + "]\n") + block + "\n";
        order := order + [s];
      }
    }
  }
}
