// Loading and saving whole INI files, and the round trip.
module IniFile {
  import opened Basics
  import opened Ini

  // ----- load --------------------------------------------------------------

  type Data = map<string, Value>

  datatype Loading = Loading(data: Data, section: string)

  datatype LoadResult =
    | Loaded(data: Data)
    | CannotOpen
    // The number of the line that stopped it, the line trimmed, and the data so far.
    | ParseError(line: nat, text: string, data: Data)

  function FullKey(section: string, key: string): string {
    if section == [] then key else section + "." + key
  }

  // `kept` holds the entries an earlier load may not change.
  function Step(lib: Library, kept: Data, st: Loading, kind: Kind): Loading
    requires kind != Bad
  {
    match kind
    case Blank => st
    case Header(section) => st.(section := section)
    case Entry(key, value) =>
      var k := FullKey(st.section, key);
      st.(data := st.data[k := if k in kept then kept[k] else ParseValue(lib, value)])
  }

  function LoadLines(lib: Library, kept: Data, st: Loading, lines: seq<string>, done: nat): LoadResult
    decreases |lines|
  {
    if lines == [] then Loaded(st.data)
    else
      var kind := Classify(lines[0]);
      if kind == Bad then ParseError(done + 1, Trim(lines[0]), st.data)
      else LoadLines(lib, kept, Step(lib, kept, st, kind), lines[1..], done + 1)
  }

  datatype Strategy = Overwrite | Preserve

  function Load(lib: Library, data: Data, text: string, strategy: Strategy): LoadResult {
    if strategy == Preserve then LoadLines(lib, data, Loading(data, []), Lines(text), 0)
    else LoadLines(lib, map[], Loading(map[], []), Lines(text), 0)
  }

  // Loading fails exactly when some line is bad, and then at the first one.
  lemma {:induction false} LoadFailsAtFirstBad(lib: Library, kept: Data, st: Loading, lines: seq<string>, done: nat)
    ensures var r := LoadLines(lib, kept, st, lines, done);
            && r != CannotOpen
            && (r.Loaded? <==> forall l :: l in lines ==> Classify(l) != Bad)
            && (r.ParseError? ==>
                  && done < r.line <= done + |lines|
                  && Classify(lines[r.line - done - 1]) == Bad
                  && r.text == Trim(lines[r.line - done - 1])
                  && forall i :: 0 <= i < r.line - done - 1 ==> Classify(lines[i]) != Bad)
    decreases |lines|
  {
    hide Classify, Trim, Step;
    if lines == [] {
    } else if Classify(lines[0]) == Bad {
      assert lines[0] in lines;
    } else {
      LoadFailsAtFirstBad(lib, kept, Step(lib, kept, st, Classify(lines[0])), lines[1..], done + 1);
      assert forall l :: l in lines <==> l == lines[0] || l in lines[1..];
      var r := LoadLines(lib, kept, st, lines, done);
      if r.ParseError? {
        forall i | 0 <= i < r.line - done - 1 ensures Classify(lines[i]) != Bad {
          if i > 0 {
            assert lines[i] == lines[1..][i - 1];
          }
        }
      }
    }
  }

  // With PRESERVE the old entries win, and the file supplies the rest.
  lemma {:induction false} PreserveLines(lib: Library, old': Data, fresh': Loading, lines: seq<string>, done: nat)
    ensures var p := LoadLines(lib, old', fresh'.(data := fresh'.data + old'), lines, done);
            var o := LoadLines(lib, map[], fresh', lines, done);
            && (p.Loaded? <==> o.Loaded?)
            && (p.Loaded? ==> p.data == o.data + old')
            && (p.ParseError? ==> o.ParseError? && (p.line, p.text) == (o.line, o.text) && p.data == o.data + old')
    decreases |lines|
  {
    hide Classify, Trim, ParseValue;
    if lines == [] {
    } else if Classify(lines[0]) == Bad {
    } else {
      var kind := Classify(lines[0]);
      var st := Step(lib, map[], fresh', kind);
      assert Step(lib, old', fresh'.(data := fresh'.data + old'), kind) == st.(data := st.data + old');
      PreserveLines(lib, old', st, lines[1..], done + 1);
    }
  }

  lemma PreserveMeaning(lib: Library, data: Data, text: string)
    ensures var p, o := Load(lib, data, text, Preserve), Load(lib, data, text, Overwrite);
            && (p.Loaded? <==> o.Loaded?)
            && (p.Loaded? ==> p.data == o.data + data)
  {
    hide LoadLines;
    assert map[] + data == data;
    PreserveLines(lib, data, Loading(map[], []), Lines(text), 0);
  }

  // A key that some file can give: a readable name, under a readable section
  // or none.
  ghost predicate Readable(k: string) {
    exists section, name :: IsKeyOf(k, section, name)
  }

  predicate IsKeyOf(k: string, section: string, name: string) {
    k == FullKey(section, name) && ReadableName(name) && (section == [] || SectionOk(section))
  }

  lemma {:induction false} LoadedReadable(lib: Library, st: Loading, lines: seq<string>, done: nat)
    requires (forall k :: k in st.data ==> Readable(k)) && (st.section == [] || SectionOk(st.section))
    requires forall l :: l in lines ==> '\n' !in l
    ensures var r := LoadLines(lib, map[], st, lines, done);
            r.Loaded? ==> forall k :: k in r.data ==> Readable(k)
    decreases |lines|
  {
    hide Classify, Trim, ParseValue, SectionOk, ReadableName, Readable, FullKey;
    if lines == [] || Classify(lines[0]) == Bad {
    } else {
      var kind := Classify(lines[0]);
      assert lines[0] in lines;
      OnlyReadable(lines[0]);
      if kind.Entry? {
        KeyOfLine(st.section, kind.key);
      }
      LoadedReadable(lib, Step(lib, map[], st, kind), lines[1..], done + 1);
    }
  }

  lemma KeyOfLine(section: string, name: string)
    requires ReadableName(name) && (section == [] || SectionOk(section))
    ensures Readable(FullKey(section, name))
  {
    assert IsKeyOf(FullKey(section, name), section, name);
  }

  lemma {:induction false} LinesHaveNoNewlines(text: string)
    ensures forall l :: l in Lines(text) ==> '\n' !in l
    decreases |text|
  {
    if text != [] {
      LinesHaveNoNewlines(GetLine(text).1);
    }
  }

  // No file at all loads into entries with other keys, so a map that holds one
  // cannot come back, whatever save writes.
  lemma RoundTripNeedsReadable(lib: Library, m: Data, text: string, data: Data)
    requires Load(lib, data, text, Overwrite) == Loaded(m)
    ensures forall k :: k in m ==> Readable(k)
  {
    LinesHaveNoNewlines(text);
    var start := Loading(map[], []);
    assert Load(lib, data, text, Overwrite) == LoadLines(lib, map[], start, Lines(text), 0);
    hide Lines, LoadLines;
    LoadedReadable(lib, start, Lines(text), 0);
  }

  // ----- save --------------------------------------------------------------

  // The part before the first dot, or nothing.
  function SectionOf(k: string): string {
    var dot := Find(k, '.');
    if dot < |k| then k[..dot] else []
  }

  function NameOf(k: string): string {
    var dot := Find(k, '.');
    if dot < |k| then k[dot + 1..] else k
  }

  predicate KeyOk(k: string) {
    && ReadableName(NameOf(k))
    && ('.' in k ==> SectionOk(SectionOf(k)))
  }

  lemma KeySplits(k: string)
    requires KeyOk(k)
    ensures FullKey(SectionOf(k), NameOf(k)) == k
  {
    var dot := Find(k, '.');
    if dot < |k| {
      assert k[..dot] + "." + k[dot + 1..] == k;
    }
  }

  type Pair = (string, Value)

  // The entries of one section, in the order of the list.
  function Block(es: seq<Pair>, section: string): seq<Pair> {
    if es == [] then []
    else (if SectionOf(es[0].0) == section then [(NameOf(es[0].0), es[0].1)] else []) + Block(es[1..], section)
  }

  function BlockLines(lib: Library, block: seq<Pair>): seq<string> {
    if block == [] then [] else [KeyLine(block[0].0, Written(lib, block[0].1))] + BlockLines(lib, block[1..])
  }

  function SectionLines(lib: Library, es: seq<Pair>, sections: seq<string>): seq<string> {
    if sections == [] then []
    else
      [HeaderLine(sections[0])] + BlockLines(lib, Block(es, sections[0])) + [""] + SectionLines(lib, es, sections[1..])
  }

  function GlobalLines(lib: Library, es: seq<Pair>): seq<string> {
    var block := Block(es, []);
    if block == [] then [] else BlockLines(lib, block) + [""]
  }

  // es lists the entries and sections the section names, each once, in any order.
  function SavedLines(lib: Library, es: seq<Pair>, sections: seq<string>): seq<string> {
    GlobalLines(lib, es) + SectionLines(lib, es, sections)
  }

  lemma KeyParts(a: string, s: string, b: string)
    requires '.' !in a && '.' !in s
    ensures SectionOf(a) == "" && NameOf(a) == a
    ensures SectionOf(s + "." + b) == s && NameOf(s + "." + b) == b
  {
    assert s + "." + b == s + ['.'] + b;
    FindFirst(s, '.', b);
    var k := s + "." + b;
    assert k[..|s|] == s && k[|s| + 1..] == b;
  }

  lemma TwoBlocks(e: Pair, f: Pair, s: string)
    requires SectionOf(e.0) == "" && SectionOf(f.0) == s != ""
    ensures Block([e, f], "") == [(NameOf(e.0), e.1)] && Block([e, f], s) == [(NameOf(f.0), f.1)]
  {
    hide SectionOf, NameOf;
    assert [e, f][1..] == [f];
    OneBlock(f, "");
    OneBlock(f, s);
  }

  lemma OneBlock(e: Pair, section: string)
    ensures Block([e], section) == if SectionOf(e.0) == section then [(NameOf(e.0), e.1)] else []
  {
    hide SectionOf, NameOf;
    assert [e][1..] == [];
  }

  lemma OneEntryBlock(lib: Library, e: Pair)
    ensures BlockLines(lib, [e]) == [KeyLine(e.0, Written(lib, e.1))]
  {
    assert [e][1..] == [];
    hide Written, KeyLine;
  }

  // For instance with one entry at the top and one under a section.
  lemma SavedText(lib: Library, a: string, v: Value, s: string, b: string, w: Value)
    requires '.' !in a && '.' !in s && s != ""
    ensures Unlines(SavedLines(lib, [(a, v), (s + "." + b, w)], [s]))
         == a + " = " + Written(lib, v) + "\n\n[" + s + "]\n" + b + " = " + Written(lib, w) + "\n\n"
  {
    KeyParts(a, s, b);
    hide SectionOf, NameOf, Written;
    var e, f := (a, v), (s + "." + b, w);
    TwoBlocks(e, f, s);
    hide Block, BlockLines, SavedLines, Unlines, KeyLine, HeaderLine;
    TwoEntryLines(lib, [e, f], s, (a, v), (b, w));
    TextOfLines(KeyLine(a, Written(lib, v)), HeaderLine(s), KeyLine(b, Written(lib, w)));
    LineTexts(a, Written(lib, v), s, b, Written(lib, w));
  }

  lemma LineTexts(a: string, x: string, s: string, b: string, y: string)
    ensures KeyLine(a, x) + "\n\n" + HeaderLine(s) + "\n" + KeyLine(b, y) + "\n\n"
         == a + " = " + x + "\n\n[" + s + "]\n" + b + " = " + y + "\n\n"
  {
  }

  lemma TwoEntryLines(lib: Library, es: seq<Pair>, s: string, top: Pair, under: Pair)
    requires Block(es, "") == [top] && Block(es, s) == [under]
    ensures SavedLines(lib, es, [s])
         == [KeyLine(top.0, Written(lib, top.1)), "", HeaderLine(s), KeyLine(under.0, Written(lib, under.1)), ""]
  {
    hide Block, KeyLine, HeaderLine, Written;
    OneEntryBlock(lib, top);
    OneEntryBlock(lib, under);
    hide BlockLines;
    assert [s][1..] == [];
    assert SectionLines(lib, es, []) == [];
  }

  lemma UnlinesCons(l: string, rest: seq<string>)
    ensures Unlines([l] + rest) == l + "\n" + Unlines(rest)
  {
    assert ([l] + rest)[1..] == rest;
  }

  lemma TextOfLines(x: string, y: string, z: string)
    ensures Unlines([x, "", y, z, ""]) == x + "\n\n" + y + "\n" + z + "\n\n"
  {
    assert Unlines([]) == "";
    hide Unlines;
    UnlinesCons("", []);
    UnlinesCons(z, [""]);
    UnlinesCons(y, [z, ""]);
    UnlinesCons("", [y, z, ""]);
    UnlinesCons(x, ["", y, z, ""]);
    assert [""] + [] == [""] && [z] + [""] == [z, ""] && [y] + [z, ""] == [y, z, ""];
    assert [""] + [y, z, ""] == ["", y, z, ""] && [x] + ["", y, z, ""] == [x, "", y, z, ""];
  }

  predicate Lists(es: seq<Pair>, sections: seq<string>, m: Data) {
    && (forall i, j :: 0 <= i < j < |es| ==> es[i].0 != es[j].0)
    && (forall i, j :: 0 <= i < j < |sections| ==> sections[i] != sections[j])
    && (forall e :: e in es ==> e.0 in m && m[e.0] == e.1)
    && (forall k :: k in m ==> (k, m[k]) in es)
    && (forall e :: e in es && SectionOf(e.0) != [] ==> SectionOf(e.0) in sections)
    && (forall s :: s in sections ==> s != [] && exists e :: e in es && SectionOf(e.0) == s)
  }

  ghost predicate IsSaved(lib: Library, m: Data, text: string) {
    exists es, sections :: Lists(es, sections, m) && text == Unlines(SavedLines(lib, es, sections))
  }

  // ----- Round trip --------------------------------------------------------

  // Every key splits into a name and a section that lines can give, and no
  // entry is written as a line that reads as a section header.
  predicate Storable(lib: Library, m: Data) {
    forall k :: k in m ==> KeyOk(k) && SectionHeader(KeyLine(NameOf(k), Written(lib, m[k]))) == None
  }

  // Everything loaded so far is what m's entries read back as.
  predicate Agrees(lib: Library, m: Data, data: Data) {
    forall k :: k in data ==> k in m && data[k] == Reread(lib, m[k])
  }

  // Entries of m under one section heading.
  predicate BlockOf(lib: Library, m: Data, section: string, block: seq<Pair>) {
    forall e :: e in block ==>
      && LineOk(e.0, Written(lib, e.1))
      && FullKey(section, e.0) in m && m[FullKey(section, e.0)] == e.1
  }

  predicate NoNewlines(lines: seq<string>) {
    forall l :: l in lines ==> '\n' !in l
  }

  lemma EntryLoads(lib: Library, m: Data, section: string, e: Pair, st: Loading, rest: seq<string>, done: nat)
    requires PlainDoubles(lib)
    requires st.section == section && Agrees(lib, m, st.data) && BlockOf(lib, m, section, [e])
    ensures var k := FullKey(section, e.0);
            var u := st.(data := st.data[k := Reread(lib, e.1)]);
            && LoadLines(lib, map[], st, [KeyLine(e.0, Written(lib, e.1))] + rest, done)
               == LoadLines(lib, map[], u, rest, done + 1)
            && Agrees(lib, m, u.data)
            && '\n' !in KeyLine(e.0, Written(lib, e.1))
  {
    hide PlainDoubles;
    hide Written, LineOk, TextOk, Classify, KeyLine, Unquote, ParseValue;
    assert e in [e];
    WrittenOk(lib, e.1);
    KeyLineReads(e.0, Written(lib, e.1));
    var line := KeyLine(e.0, Written(lib, e.1));
    assert ([line] + rest)[1..] == rest;
  }

  // Reading a block adds exactly what its entries read back as.
  lemma {:induction false} BlockLoads(lib: Library, m: Data, section: string, block: seq<Pair>,
      st: Loading, rest: seq<string>, done: nat)
    returns (u: Loading)
    requires PlainDoubles(lib)
    requires st.section == section && Agrees(lib, m, st.data) && BlockOf(lib, m, section, block)
    ensures LoadLines(lib, map[], st, BlockLines(lib, block) + rest, done)
         == LoadLines(lib, map[], u, rest, done + |block|)
    ensures u.section == section && Agrees(lib, m, u.data) && NoNewlines(BlockLines(lib, block))
    ensures st.data.Keys <= u.data.Keys && forall e :: e in block ==> FullKey(section, e.0) in u.data
    decreases |block|
  {
    hide PlainDoubles;
    hide LoadLines, KeyLine, Written, Reread, LineOk, FullKey, Agrees;
    if block == [] {
      assert BlockLines(lib, block) + rest == rest;
      u := st;
    } else {
      var e, more := block[0], block[1..];
      assert BlockOf(lib, m, section, [e]) && BlockOf(lib, m, section, more);
      var line, tail := KeyLine(e.0, Written(lib, e.1)), BlockLines(lib, more);
      assert BlockLines(lib, block) + rest == [line] + (tail + rest);
      EntryLoads(lib, m, section, e, st, tail + rest, done);
      var mid := st.(data := st.data[FullKey(section, e.0) := Reread(lib, e.1)]);
      u := BlockLoads(lib, m, section, more, mid, rest, done + 1);
      assert forall x :: x in block ==> x == e || x in more;
    }
  }

  lemma {:induction false} BlockMembers(es: seq<Pair>, section: string)
    ensures forall e :: e in es && SectionOf(e.0) == section ==> (NameOf(e.0), e.1) in Block(es, section)
    ensures forall b :: b in Block(es, section) ==>
              exists e :: e in es && SectionOf(e.0) == section && (NameOf(e.0), e.1) == b
  {
    hide SectionOf, NameOf;
    if es == [] {
    } else {
      BlockMembers(es[1..], section);
      assert forall e :: e in es <==> e == es[0] || e in es[1..];
    }
  }

  lemma BlockBelongs(lib: Library, es: seq<Pair>, sections: seq<string>, m: Data, section: string)
    requires Storable(lib, m) && Lists(es, sections, m)
    ensures BlockOf(lib, m, section, Block(es, section))
  {
    hide Block;
    BlockMembers(es, section);
    forall b | b in Block(es, section)
      ensures LineOk(b.0, Written(lib, b.1)) && FullKey(section, b.0) in m && m[FullKey(section, b.0)] == b.1
    {
      var e :| e in es && SectionOf(e.0) == section && (NameOf(e.0), e.1) == b;
      KeySplits(e.0);
    }
  }

  lemma SectionBelongs(lib: Library, es: seq<Pair>, sections: seq<string>, m: Data, section: string)
    requires Storable(lib, m) && Lists(es, sections, m) && section in sections
    ensures SectionOk(section)
  {
    hide SectionOf, SectionOk;
    var e :| e in es && SectionOf(e.0) == section;
    SectionMeansDot(e.0);
    assert KeyOk(e.0);
  }

  lemma SectionMeansDot(k: string)
    ensures SectionOf(k) != "" ==> '.' in k
  {
  }

  lemma HeaderLoads(lib: Library, section: string, st: Loading, rest: seq<string>, done: nat)
    requires SectionOk(section)
    ensures LoadLines(lib, map[], st, [HeaderLine(section)] + rest, done)
         == LoadLines(lib, map[], st.(section := section), rest, done + 1)
    ensures '\n' !in HeaderLine(section)
  {
    HeaderLineReads(section);
    hide Classify, SectionOk, HeaderLine;
    assert ([HeaderLine(section)] + rest)[1..] == rest;
  }

  lemma BlankLoads(lib: Library, st: Loading, rest: seq<string>, done: nat)
    ensures LoadLines(lib, map[], st, [""] + rest, done) == LoadLines(lib, map[], st, rest, done + 1)
  {
    assert Classify("") == Blank;
    assert ([""] + rest)[1..] == rest;
  }

  // A block and the empty line that ends it.
  lemma BlockAndBlankLoad(lib: Library, m: Data, section: string, block: seq<Pair>,
      st: Loading, rest: seq<string>, done: nat)
    returns (u: Loading)
    requires PlainDoubles(lib)
    requires st.section == section && Agrees(lib, m, st.data) && BlockOf(lib, m, section, block)
    ensures LoadLines(lib, map[], st, BlockLines(lib, block) + ([""] + rest), done)
         == LoadLines(lib, map[], u, rest, done + |block| + 1)
    ensures u.section == section && Agrees(lib, m, u.data) && NoNewlines(BlockLines(lib, block))
    ensures st.data.Keys <= u.data.Keys && forall e :: e in block ==> FullKey(section, e.0) in u.data
  {
    hide PlainDoubles;
    hide Agrees, LoadLines, BlockOf, BlockLines, FullKey, NoNewlines;
    u := BlockLoads(lib, m, section, block, st, [""] + rest, done);
    BlankLoads(lib, u, rest, done + |block|);
  }

  lemma {:induction false} SectionsLoad(lib: Library, m: Data, es: seq<Pair>, all: seq<string>, sections: seq<string>,
      st: Loading, done: nat)
    returns (data: Data)
    requires PlainDoubles(lib)
    requires Storable(lib, m) && Lists(es, all, m) && Agrees(lib, m, st.data)
    requires forall s :: s in sections ==> s in all
    ensures LoadLines(lib, map[], st, SectionLines(lib, es, sections), done) == Loaded(data)
    ensures Agrees(lib, m, data) && NoNewlines(SectionLines(lib, es, sections)) && st.data.Keys <= data.Keys
    ensures forall e :: e in es && SectionOf(e.0) in sections ==> e.0 in data
    decreases |sections|
  {
    hide PlainDoubles;
    if sections == [] {
      data := st.data;
    } else {
      var s, more := sections[0], sections[1..];
      data := SectionLoads(lib, m, es, all, s, more, st, done);
    }
  }

  lemma SectionLoads(lib: Library, m: Data, es: seq<Pair>, all: seq<string>, s: string, more: seq<string>,
      st: Loading, done: nat)
    returns (data: Data)
    requires PlainDoubles(lib)
    requires Storable(lib, m) && Lists(es, all, m) && Agrees(lib, m, st.data)
    requires s in all && forall t :: t in more ==> t in all
    ensures LoadLines(lib, map[], st, SectionLines(lib, es, [s] + more), done) == Loaded(data)
    ensures Agrees(lib, m, data) && NoNewlines(SectionLines(lib, es, [s] + more)) && st.data.Keys <= data.Keys
    ensures forall e :: e in es && SectionOf(e.0) in [s] + more ==> e.0 in data
    decreases |more| + 1, 0
  {
    hide PlainDoubles;
    hide LoadLines, HeaderLine, BlockLines, Agrees, SectionOf, NameOf, SectionOk, Storable, Lists, BlockOf, FullKey;
    var block, rest := Block(es, s), SectionLines(lib, es, more);
    var lines := BlockLines(lib, block);
    assert ([s] + more)[1..] == more;
    assert SectionLines(lib, es, [s] + more) == [HeaderLine(s)] + (lines + ([""] + rest));
    SectionBelongs(lib, es, all, m, s);
    HeaderLoads(lib, s, st, lines + ([""] + rest), done);
    BlockBelongs(lib, es, all, m, s);
    var u := BlockAndBlankLoad(lib, m, s, block, st.(section := s), rest, done + 1);
    data := SectionsLoad(lib, m, es, all, more, u, done + 2 + |block|);
    BlockLoaded(lib, es, all, m, s, u.data);
  }

  lemma BlockLoaded(lib: Library, es: seq<Pair>, all: seq<string>, m: Data, s: string, data: Data)
    requires Storable(lib, m) && Lists(es, all, m)
    requires forall b :: b in Block(es, s) ==> FullKey(s, b.0) in data
    ensures forall e :: e in es && SectionOf(e.0) == s ==> e.0 in data
  {
    hide Block;
    BlockMembers(es, s);
    forall e | e in es && SectionOf(e.0) == s ensures e.0 in data {
      KeySplits(e.0);
      assert (NameOf(e.0), e.1) in Block(es, s);
    }
  }

  function RereadAll(lib: Library, m: Data): Data {
    map k | k in m :: Reread(lib, m[k])
  }

  lemma GlobalsLoad(lib: Library, m: Data, es: seq<Pair>, sections: seq<string>, st: Loading, rest: seq<string>)
    returns (u: Loading, done: nat)
    requires PlainDoubles(lib)
    requires Storable(lib, m) && Lists(es, sections, m) && st.section == [] && Agrees(lib, m, st.data)
    ensures LoadLines(lib, map[], st, GlobalLines(lib, es) + rest, 0) == LoadLines(lib, map[], u, rest, done)
    ensures Agrees(lib, m, u.data) && NoNewlines(GlobalLines(lib, es))
    ensures forall e :: e in es && SectionOf(e.0) == [] ==> e.0 in u.data
  {
    hide PlainDoubles;
    hide LoadLines, BlockLines, SectionOf, Storable, BlockOf, FullKey, Lists, Agrees, Block, GlobalLines, NoNewlines;
    var none := st.section;
    GlobalShape(lib, es, rest);
    BlockBelongs(lib, es, sections, m, none);
    if Block(es, none) == [] {
      u, done := st, 0;
    } else {
      u := BlockAndBlankLoad(lib, m, none, Block(es, none), st, rest, 0);
      done := |Block(es, none)| + 1;
    }
    BlockLoaded(lib, es, sections, m, none, u.data);
  }

  lemma GlobalShape(lib: Library, es: seq<Pair>, rest: seq<string>)
    ensures var block := Block(es, []);
            if block == [] then GlobalLines(lib, es) + rest == rest && NoNewlines(GlobalLines(lib, es))
            else
              && GlobalLines(lib, es) + rest == BlockLines(lib, block) + ([""] + rest)
              && (NoNewlines(BlockLines(lib, block)) ==> NoNewlines(GlobalLines(lib, es)))
  {
    hide BlockLines, Block;
  }

  lemma SavedLinesLoad(lib: Library, m: Data, es: seq<Pair>, sections: seq<string>)
    requires PlainDoubles(lib)
    requires Storable(lib, m) && Lists(es, sections, m)
    ensures LoadLines(lib, map[], Loading(map[], []), SavedLines(lib, es, sections), 0) == Loaded(RereadAll(lib, m))
    ensures NoNewlines(SavedLines(lib, es, sections))
  {
    hide PlainDoubles;
    var start := Loading(map[], []);
    assert Agrees(lib, m, start.data);
    hide LoadLines, SectionLines, GlobalLines, SectionOf, Storable, Lists, Agrees, RereadAll;
    var u, done := GlobalsLoad(lib, m, es, sections, start, SectionLines(lib, es, sections));
    var data := SectionsLoad(lib, m, es, sections, sections, u, done);
    AllLoaded(lib, m, es, sections, data);
  }

  lemma AllLoaded(lib: Library, m: Data, es: seq<Pair>, sections: seq<string>, data: Data)
    requires Lists(es, sections, m) && Agrees(lib, m, data)
    requires forall e :: e in es && (SectionOf(e.0) in sections || SectionOf(e.0) == []) ==> e.0 in data
    ensures data == RereadAll(lib, m)
  {
    hide SectionOf, Reread;
    forall k | k in m ensures k in data {
      assert (k, m[k]) in es;
    }
  }

  // What is saved loads again, and every value is what it reads back as.
  lemma SaveThenLoad(lib: Library, m: Data, text: string, data: Data)
    requires PlainDoubles(lib)
    requires Storable(lib, m) && IsSaved(lib, m, text)
    ensures Load(lib, data, text, Overwrite) == Loaded(RereadAll(lib, m))
  {
    hide PlainDoubles;
    var es, sections :| Lists(es, sections, m) && text == Unlines(SavedLines(lib, es, sections));
    hide Lists, Storable, SavedLines, LoadLines, Lines, Unlines;
    SavedLinesLoad(lib, m, es, sections);
    LinesUnlines(SavedLines(lib, es, sections));
  }

  lemma RereadAllIff(lib: Library, m: Data)
    requires PlainDoubles(lib)
    requires Storable(lib, m)
    ensures RereadAll(lib, m) == m <==> forall k :: k in m ==> Survives(lib, m[k])
  {
    hide PlainDoubles;
    hide Reread, Survives, KeyOk;
    forall k | k in m ensures RereadAll(lib, m)[k] == m[k] <==> Survives(lib, m[k]) {
      SurvivesIff(lib, m[k]);
    }
    if forall k :: k in m ==> Survives(lib, m[k]) {
      assert RereadAll(lib, m) == m;
    }
  }
}
