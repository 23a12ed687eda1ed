// Which maps come back from a file: load(save(m)) == m, for every map m.
module IniRoundTrip {
  import opened Basics
  import opened Ini
  import opened IniFile
  import opened IniReading

  const START := Loading(map[], [])

  // ----- Where an entry comes from -----------------------------------------

  // The section in force before line i.
  function SectionAt(section: string, lines: seq<string>, i: nat): string
    requires i <= |lines|
  {
    if i == 0 then section
    else
      match Classify(lines[i - 1])
      case Header(s) => s
      case _ => SectionAt(section, lines, i - 1)
  }

  lemma {:induction false} SectionShift(section: string, lines: seq<string>, i: nat)
    requires i < |lines|
    ensures SectionAt(section, lines, i + 1) == SectionAt(SectionAt(section, lines, 1), lines[1..], i)
  {
    hide Classify;
    if i > 0 {
      SectionShift(section, lines, i - 1);
      assert lines[1..][i - 1] == lines[i];
    }
  }

  // Line i gives key k the value v.
  predicate Gives(lib: Library, section: string, lines: seq<string>, i: nat, k: string, v: Value) {
    && i < |lines|
    && var kind := Classify(lines[i]);
       kind.Entry? && k == FullKey(SectionAt(section, lines, i), kind.key) && v == ParseValue(lib, kind.value)
  }

  // What is loaded was there before or is given by some line.
  lemma {:induction false} Provenance(lib: Library, st: Loading, lines: seq<string>, done: nat, k: string)
    ensures var r := LoadLines(lib, map[], st, lines, done);
            r.Loaded? && k in r.data ==>
              || (k in st.data && r.data[k] == st.data[k])
              || exists i: nat :: Gives(lib, st.section, lines, i, k, r.data[k])
    decreases |lines|
  {
    hide Classify, FullKey, ParseValue;
    var r := LoadLines(lib, map[], st, lines, done);
    if lines != [] && Classify(lines[0]) != Bad && r.Loaded? && k in r.data {
      var kind := Classify(lines[0]);
      var u := Step(lib, map[], st, kind);
      assert u.section == SectionAt(st.section, lines, 1);
      Provenance(lib, u, lines[1..], done + 1, k);
      if i: nat :| Gives(lib, u.section, lines[1..], i, k, r.data[k]) {
        SectionShift(st.section, lines, i);
        assert Gives(lib, st.section, lines, i + 1, k, r.data[k]);
      } else if !(k in st.data && r.data[k] == st.data[k]) {
        assert Gives(lib, st.section, lines, 0, k, r.data[k]);
      }
    }
  }

  lemma {:induction false} SectionIsOk(lines: seq<string>, i: nat)
    requires i <= |lines| && NoNewlines(lines)
    ensures SectionAt([], lines, i) == [] || SectionOk(SectionAt([], lines, i))
  {
    hide Classify, SectionOk;
    if i > 0 {
      assert lines[i - 1] in lines;
      OnlyReadable(lines[i - 1]);
      SectionIsOk(lines, i - 1);
    }
  }

  // Once a header has been read there is always a section.
  lemma {:induction false} StaysSectioned(lines: seq<string>, j: nat, i: nat)
    requires j < i <= |lines| && NoNewlines(lines) && Classify(lines[j]).Header?
    ensures SectionAt([], lines, i) != []
  {
    hide Classify;
    assert lines[i - 1] in lines;
    OnlyReadable(lines[i - 1]);
    if j < i - 1 {
      StaysSectioned(lines, j, i - 1);
    }
  }

  // ----- What stands in a saved file ---------------------------------------

  function LineOf(lib: Library, e: Pair): string {
    KeyLine(NameOf(e.0), Written(lib, e.1))
  }

  predicate Headed(lines: seq<string>, i: nat, s: string) {
    exists j :: 0 <= j < i <= |lines| && lines[j] == HeaderLine(s)
  }

  // An empty line, a header, or the line of an entry, under its header if it
  // has a section.
  predicate Origin(lib: Library, es: seq<Pair>, sections: seq<string>, lines: seq<string>, i: nat)
    requires i < |lines|
  {
    || lines[i] == ""
    || (exists s :: s in sections && lines[i] == HeaderLine(s))
    || (exists e :: e in es && EntryOf(lib, lines, i, e))
  }

  predicate EntryOf(lib: Library, lines: seq<string>, i: nat, e: Pair)
    requires i < |lines|
  {
    lines[i] == LineOf(lib, e) && (SectionOf(e.0) == [] || Headed(lines, i, SectionOf(e.0)))
  }

  // Lines keep their origin when others are put before or after them.
  lemma OriginInside(lib: Library, es: seq<Pair>, some: seq<string>, sections: seq<string>,
                     before: seq<string>, lines: seq<string>, after: seq<string>, i: nat)
    requires i < |lines| && Origin(lib, es, some, lines, i) && forall s :: s in some ==> s in sections
    ensures Origin(lib, es, sections, before + lines + after, |before| + i)
  {
    hide HeaderLine, LineOf, SectionOf;
    var all := before + lines + after;
    assert all[|before| + i] == lines[i];
    if e :| e in es && EntryOf(lib, lines, i, e) {
      if Headed(lines, i, SectionOf(e.0)) {
        var j :| 0 <= j < i && lines[j] == HeaderLine(SectionOf(e.0));
        assert all[|before| + j] == lines[j];
      }
      assert EntryOf(lib, all, |before| + i, e);
    }
  }

  lemma {:induction false} BlockLineAt(lib: Library, block: seq<Pair>, i: nat)
    ensures |BlockLines(lib, block)| == |block|
    ensures i < |block| ==> BlockLines(lib, block)[i] == KeyLine(block[i].0, Written(lib, block[i].1))
    decreases |block|
  {
    hide KeyLine, Written;
    if block != [] {
      BlockLineAt(lib, block[1..], if i == 0 then 0 else i - 1);
    }
  }

  // The entries of one section, after its header, or at the top of the file.
  lemma BlockOrigin(lib: Library, es: seq<Pair>, sections: seq<string>, s: string, head: seq<string>, i: nat)
    requires s == [] || HeaderLine(s) in head
    requires i < |BlockLines(lib, Block(es, s))|
    ensures Origin(lib, es, sections, head + BlockLines(lib, Block(es, s)), |head| + i)
  {
    var block := Block(es, s);
    var lines := head + BlockLines(lib, block);
    BlockLineAt(lib, block, i);
    BlockMembers(es, s);
    hide KeyLine, Written, SectionOf, NameOf, HeaderLine, BlockLines, Block;
    var b := block[i];
    assert b in block;
    var e :| e in es && SectionOf(e.0) == s && (NameOf(e.0), e.1) == b;
    if s != [] {
      var j :| 0 <= j < |head| && head[j] == HeaderLine(s);
      assert lines[j] == HeaderLine(s);
    }
    assert EntryOf(lib, lines, |head| + i, e);
  }

  lemma {:induction false} SectionLineOrigin(lib: Library, es: seq<Pair>, sections: seq<string>, i: nat)
    requires i < |SectionLines(lib, es, sections)|
    ensures Origin(lib, es, sections, SectionLines(lib, es, sections), i)
    decreases |sections|
  {
    hide HeaderLine, BlockLines, Block, Origin;
    if sections == [] {
    } else {
      var s := sections[0];
      var head, block := [HeaderLine(s)], BlockLines(lib, Block(es, s));
      var rest := SectionLines(lib, es, sections[1..]);
      assert SectionLines(lib, es, sections) == head + block + [""] + rest;
      if i < |head| + |block| {
        SectionStart(lib, es, sections, s, i);
        assert [] + (head + block) + ([""] + rest) == head + block + [""] + rest;
        OriginInside(lib, es, sections, sections, [], head + block, [""] + rest, i);
      } else if i == |head| + |block| {
        BlankOrigin(lib, es, sections, head + block + [""] + rest, i);
      } else {
        var k := i - (|head| + |block| + 1);
        SectionLineOrigin(lib, es, sections[1..], k);
        assert (head + block + [""]) + rest + [] == head + block + [""] + rest;
        OriginInside(lib, es, sections[1..], sections, head + block + [""], rest, [], k);
      }
    }
  }

  lemma BlankOrigin(lib: Library, es: seq<Pair>, sections: seq<string>, lines: seq<string>, i: nat)
    requires i < |lines| && lines[i] == ""
    ensures Origin(lib, es, sections, lines, i)
  {
  }

  lemma SectionStart(lib: Library, es: seq<Pair>, sections: seq<string>, s: string, i: nat)
    requires s in sections && i < 1 + |BlockLines(lib, Block(es, s))|
    ensures Origin(lib, es, sections, [HeaderLine(s)] + BlockLines(lib, Block(es, s)), i)
  {
    hide HeaderLine, BlockLines, Block;
    if i > 0 {
      BlockOrigin(lib, es, sections, s, [HeaderLine(s)], i - 1);
    }
  }

  lemma SavedLineOrigin(lib: Library, es: seq<Pair>, sections: seq<string>, i: nat)
    requires i < |SavedLines(lib, es, sections)|
    ensures Origin(lib, es, sections, SavedLines(lib, es, sections), i)
  {
    hide BlockLines, Block, SectionLines, Origin;
    var none: string := [];
    var block, rest := BlockLines(lib, Block(es, none)), SectionLines(lib, es, sections);
    var globals := GlobalLines(lib, es);
    if i >= |globals| {
      SectionLineOrigin(lib, es, sections, i - |globals|);
      assert globals + rest + [] == globals + rest;
      OriginInside(lib, es, sections, sections, globals, rest, [], i - |globals|);
    } else if i < |block| {
      BlockOrigin(lib, es, sections, none, [], i);
      assert [] + ([] + block) + ([""] + rest) == globals + rest;
      OriginInside(lib, es, sections, sections, [], [] + block, [""] + rest, i);
    } else {
      BlockLineAt(lib, Block(es, none), 0);
      BlankOrigin(lib, es, sections, globals + rest, i);
    }
  }

  // ----- What a written line can read as -----------------------------------

  lemma TrimKeeps(s: string, c: char)
    requires c in s && !IsSpace(c)
    ensures c in Trim(s)
  {
    var a, b := TrimAt(s);
    hide Trim;
    var i :| 0 <= i < |s| && s[i] == c;
    assert s[a..b][i - a] == c;
  }

  lemma KeyRead(raw: string)
    requires Classify(raw).Entry? && '=' in Trim(raw)
    ensures Classify(raw).key == Trim(Trim(raw)[..Find(Trim(raw), '=')]) != []
  {
    hide Trim, Find, SectionHeader;
  }

  // It stands before any equals sign of the line.
  lemma KeyEndsBefore(line: string, n: nat)
    requires Classify(line).Entry? && n < |line| && line[n] == '='
    ensures exists a, f :: 0 <= a <= f <= n && Classify(line).key == Trim(line[a..f]) != []
  {
    var a, b := TrimAt(line);
    assert a <= n < b by {
      assert !IsSpace(line[n]);
    }
    KeyRead(line) by {
      assert line[a..b][n - a] == '=';
    }
    PartEndsBefore(line, a, b, n);
    hide Classify, Trim, Find, IsSpace;
    var f := a + Find(line[a..b], '=');
    assert Classify(line).key == Trim(line[a..f]);
  }

  lemma PartEndsBefore(line: string, a: nat, b: nat, n: nat)
    requires a <= n < b <= |line| && line[n] == '='
    ensures var f := Find(line[a..b], '=');
            a + f <= n && line[a..b][..f] == line[a..a + f]
  {
    FindAtMost(line[a..b], '=', n - a);
  }

  // The key read from the line of a name is a piece of that name.
  lemma KeyInsideName(name: string, w: string)
    requires Classify(KeyLine(name, w)).Entry?
    ensures exists a, b :: 0 <= a <= b <= |name| && Classify(KeyLine(name, w)).key == name[a..b]
  {
    var line := KeyLine(name, w);
    assert line[|name| + 1] == '=';
    hide KeyLine, Classify, Trim;
    KeyEndsBefore(line, |name| + 1);
    var a, f :| 0 <= a <= f <= |name| + 1 && Classify(line).key == Trim(line[a..f]) != [];
    PieceBeforeEquals(name, w, a, f);
  }

  lemma PieceBeforeEquals(name: string, w: string, a: nat, b: nat)
    requires a <= b <= |name| + 1 && Trim(KeyLine(name, w)[a..b]) != []
    ensures exists c, d :: 0 <= c <= d <= |name| && Trim(KeyLine(name, w)[a..b]) == name[c..d]
  {
    var line := KeyLine(name, w);
    var part := line[a..b];
    var c, d := TrimAt(part);
    assert part[d - 1] == line[a + d - 1] && part[c..d] == line[a + c..a + d];
    hide Trim;
    PieceOfName(name, w, a + c, a + d);
  }

  lemma FindAtMost(s: string, c: char, n: nat)
    requires n < |s| && s[n] == c
    ensures Find(s, c) <= n
  {
    var i := Find(s, c);
    assert forall j :: 0 <= j < i ==> s[..i][j] == s[j];
  }

  lemma PieceOfName(name: string, w: string, a: nat, b: nat)
    requires a < b <= |name| + 1 && KeyLine(name, w)[b - 1] != ' '
    ensures b <= |name| && KeyLine(name, w)[a..b] == name[a..b]
  {
  }

  lemma EntryInside(raw: string)
    requires Classify(raw).Entry?
    ensures forall c :: c in Classify(raw).key ==> c in raw
  {
    var line := Trim(raw);
    TrimIsTight(raw);
    hide Trim;
    var eq := Find(line, '=');
    var sep := if eq < |line| then eq else Find(line, ':');
    TrimIsTight(line[..sep]);
    assert forall c :: c in line[..sep] ==> c in line;
  }

  // ----- Every key must split ----------------------------------------------

  // A file that was written for m loads into m.
  ghost predicate Returns(lib: Library, m: Data, es: seq<Pair>, sections: seq<string>, lines: seq<string>) {
    && PlainDoubles(lib) && Lists(es, sections, m)
    && lines == SavedLines(lib, es, sections) && NoNewlines(lines)
    && LoadLines(lib, map[], START, lines, 0) == Loaded(m)
  }

  lemma GivenBy(lib: Library, m: Data, es: seq<Pair>, sections: seq<string>, lines: seq<string>, k: string)
    returns (i: nat)
    requires Returns(lib, m, es, sections, lines) && k in m
    ensures Gives(lib, [], lines, i, k, m[k]) && Origin(lib, es, sections, lines, i)
  {
    var st := START;
    hide LoadLines, Gives, Origin, SavedLines;
    Provenance(lib, st, lines, 0, k);
    i :| Gives(lib, [], lines, i, k, m[k]);
    assert i < |lines| by {
      GivesInside(lib, lines, i, k, m[k]);
    }
    SavedLineOrigin(lib, es, sections, i);
  }

  lemma GivesInside(lib: Library, lines: seq<string>, i: nat, k: string, v: Value)
    requires Gives(lib, [], lines, i, k, v)
    ensures i < |lines|
  {
  }

  // A key given under a section splits there.
  lemma SplitsAtSection(section: string, name: string)
    requires SectionOk(section) && ReadableName(name)
    ensures var k := FullKey(section, name); KeyOk(k) && SectionOf(k) == section && NameOf(k) == name
  {
    var k := FullKey(section, name);
    assert k == section + ['.'] + name;
    FindFirst(section, '.', name);
    assert k[..|section|] == section && k[|section| + 1..] == name;
  }

  lemma Undotted(k: string)
    requires '.' !in k
    ensures SectionOf(k) == [] && NameOf(k) == k
  {
  }

  // A key that does not split well is given before any header, so by the line
  // of a longer such key.
  lemma LongerKey(lib: Library, m: Data, es: seq<Pair>, sections: seq<string>, lines: seq<string>, k: string)
    returns (longer: string)
    requires Returns(lib, m, es, sections, lines) && k in m && !KeyOk(k)
    ensures longer in m && !KeyOk(longer) && |longer| > |k|
  {
    hide LoadLines, SavedLines, PlainDoubles;
    var i := GivenBy(lib, m, es, sections, lines, k);
    var name := Classify(lines[i]).key;
    assert lines[i] in lines;
    OnlyReadable(lines[i]);
    SectionIsOk(lines, i);
    var section := SectionAt([], lines, i);
    hide Classify, SectionAt, ReadableName, SectionOk;
    if section != [] {
      SplitsAtSection(section, name);
    }
    assert section == [] && k == name;
    if '.' !in k {
      Undotted(k);
    }
    longer := FromLonger(lib, m, es, sections, lines, i);
  }

  lemma FromLonger(lib: Library, m: Data, es: seq<Pair>, sections: seq<string>, lines: seq<string>, i: nat)
    returns (longer: string)
    requires Lists(es, sections, m) && NoNewlines(lines) && i < |lines| && Origin(lib, es, sections, lines, i)
    requires Classify(lines[i]).Entry? && '.' in Classify(lines[i]).key && SectionAt([], lines, i) == []
    ensures longer in m && !KeyOk(longer) && |longer| > |Classify(lines[i]).key|
  {
    EntryInside(lines[i]);
    hide SectionAt, HeaderLine, LineOf, Classify, SectionOk, KeyOk;
    assert lines[i] != "";
    if s :| s in sections && lines[i] == HeaderLine(s) {
      HeaderUndotted(es, sections, m, s);
    }
    var e :| e in es && EntryOf(lib, lines, i, e);
    longer := e.0;
    NameShorter(lib, e);
    if KeyOk(longer) {
      UnderHeader(lib, lines, i, e);
    }
  }

  lemma HeaderUndotted(es: seq<Pair>, sections: seq<string>, m: Data, s: string)
    requires Lists(es, sections, m) && s in sections
    ensures '.' !in HeaderLine(s)
  {
    var e :| e in es && SectionOf(e.0) == s;
  }

  lemma NameShorter(lib: Library, e: Pair)
    requires Classify(LineOf(lib, e)).Entry? && '.' in Classify(LineOf(lib, e)).key
    ensures '.' in e.0 && |e.0| > |Classify(LineOf(lib, e)).key|
  {
    KeyInsideName(NameOf(e.0), Written(lib, e.1));
    hide Classify, KeyLine, Written;
    var key := Classify(LineOf(lib, e)).key;
    var a, b :| 0 <= a <= b <= |NameOf(e.0)| && key == NameOf(e.0)[a..b];
    assert '.' in NameOf(e.0);
  }

  // A dotted key that splits well stands under its header.
  lemma UnderHeader(lib: Library, lines: seq<string>, i: nat, e: Pair)
    requires i < |lines| && NoNewlines(lines) && EntryOf(lib, lines, i, e) && KeyOk(e.0) && '.' in e.0
    ensures SectionAt([], lines, i) != []
  {
    hide LineOf, HeaderLine, Classify, SectionAt;
    var s := SectionOf(e.0);
    var j :| 0 <= j < i && lines[j] == HeaderLine(s);
    HeaderLineReads(s);
    StaysSectioned(lines, j, i);
  }

  lemma {:induction false} LongestKey(keys: set<string>) returns (n: nat)
    ensures forall k :: k in keys ==> |k| <= n
  {
    if keys == {} {
      n := 0;
    } else {
      var k := SomeMember(keys);
      var r := LongestKey(keys - {k});
      n := if |k| > r then |k| else r;
      assert forall x :: x in keys ==> x == k || x in keys - {k};
    }
  }

  lemma {:induction false} Ascends(lib: Library, m: Data, es: seq<Pair>, sections: seq<string>, lines: seq<string>,
                                   k: string, n: nat)
    requires Returns(lib, m, es, sections, lines) && k in m && forall x :: x in m ==> |x| <= n
    ensures KeyOk(k)
    decreases n - |k|
  {
    hide Returns, KeyOk;
    if !KeyOk(k) {
      var longer := LongerKey(lib, m, es, sections, lines, k);
      Ascends(lib, m, es, sections, lines, longer, n);
    }
  }

  // ----- No entry may read as a header -------------------------------------

  // Up to the first closing bracket.
  function Before(w: string): string {
    w[..Find(w, ']')]
  }

  lemma FindAfter(a: string, b: string, c: char)
    requires c !in a
    ensures Find(a + b, c) == |a| + Find(b, c)
  {
    var i := Find(b, c);
    if i < |b| {
      assert a + b == (a + b[..i]) + [c] + b[i + 1..];
      FindFirst(a + b[..i], c, b[i + 1..]);
    } else {
      assert c !in a + b;
    }
  }

  lemma FindWithin(a: string, b: string, c: char)
    requires c in a
    ensures Find(a + b, c) == Find(a, c)
  {
    var i := Find(a, c);
    assert a + b == a[..i] + [c] + (a[i + 1..] + b);
    FindFirst(a[..i], c, a[i + 1..] + b);
  }

  lemma BeforeAfter(a: string, b: string)
    requires ']' !in a
    ensures Before(a + b) == a + Before(b)
  {
    FindAfter(a, b, ']');
  }

  lemma {:induction false} EscapeKeepsDot(s: string)
    requires '.' in Before(s)
    ensures '.' in Before(Escape(s))
    decreases |s|
  {
    var c, rest := s[0], s[1..];
    assert Escape(s) == EscapeChar(c) + Escape(rest);
    assert c != ']';
    BeforeAfter(EscapeChar(c), Escape(rest));
    BeforeAfter([c], rest);
    assert [c] + rest == s;
    hide Before, Escape, EscapeChar;
    if c == '.' {
      DotIsKept();
    } else {
      EscapeKeepsDot(rest);
    }
  }

  lemma DotIsKept()
    ensures EscapeChar('.') == ['.']
  {
  }

  lemma {:induction false} EscapeKeepsBracket(s: string)
    ensures ']' in Escape(s) <==> ']' in s
  {
    if s != [] {
      EscapeKeepsBracket(s[1..]);
      assert ']' in s <==> s[0] == ']' || ']' in s[1..];
    }
  }

  // Only a quoted string can hold a closing bracket.
  lemma BracketIsQuoted(lib: Library, v: Value)
    requires PlainDoubles(lib) && ']' in Written(lib, v)
    ensures v.Str? && NeedsQuoting(v.s) && Written(lib, v) == "\"" + Escape(v.s) + "\"" && ']' in v.s
  {
    match v
    case Null =>
    case Bool(_) =>
    case Int(i) => DigitsOnly(i);
    case Double(d) => NoBracketInDouble(lib, d);
    case Str(s) =>
      EscapeKeepsBracket(s);
      assert !NeedsQuoting(s) ==> !IsSpecial(']');
  }

  lemma NoBracketInDouble(lib: Library, d: real)
    requires PlainDoubles(lib)
    ensures ']' !in lib.show(d)
  {
    assert IsPlainDouble(lib.show(d));
  }

  lemma DigitsOnly(i: int)
    ensures ']' !in PrintInt(i)
  {
    var d := Digits(if i < 0 then -i else i);
    assert forall c :: c in d ==> IsDigit(c);
    hide Digits;
  }

  // A bracket in the name decides without the value.
  lemma HeaderByName(name: string, w: string, u: string)
    requires ReadableName(name) && ']' in name
    ensures SectionHeader(KeyLine(name, w)) == SectionHeader(KeyLine(name, u))
  {
    FindWithin(name, " = " + w, ']');
    FindWithin(name, " = " + u, ']');
    assert KeyLine(name, w) == name + (" = " + w) && KeyLine(name, u) == name + (" = " + u);
    var i := Find(name, ']');
    if name[0] == '[' {
      assert KeyLine(name, w)[1..i] == name[1..i] == KeyLine(name, u)[1..i];
    }
    hide Trim, Find;
  }

  // Otherwise the value does, and only a dot before the bracket saves the line.
  lemma HeaderByValue(name: string, w: string)
    requires ReadableName(name) && ']' !in name && name[0] == '['
    ensures SectionHeader(KeyLine(name, w)) == None <==> ']' !in w || '.' in name || '.' in Before(w)
  {
    var line, head := KeyLine(name, w), name + " = ";
    assert line == head + w;
    FindAfter(head, w, ']');
    if ']' in w {
      var inner := line[1..Find(line, ']')];
      assert inner == head[1..] + Before(w);
      assert head[1..] == name[1..] + " = " && head[1..][|name|] == '=';
      assert name == ['['] + name[1..];
      TrimKeeps(inner, '=');
      TrimIsTight(inner);
      assert '.' in inner <==> '.' in name || '.' in Before(w);
      if '.' in inner {
        TrimKeeps(inner, '.');
      }
      hide Trim, Find;
    }
  }

  // What a value is read back as is written with a header in it only if the
  // value is.
  lemma SameHeader(lib: Library, name: string, v: Value)
    requires PlainDoubles(lib) && ReadableName(name)
    requires SectionHeader(KeyLine(name, Written(lib, v))) == None
    ensures SectionHeader(KeyLine(name, Written(lib, Reread(lib, v)))) == None
  {
    var u := Reread(lib, v);
    var w, x := Written(lib, v), Written(lib, u);
    hide PlainDoubles, Written, SectionHeader, KeyLine, Reread;
    if name[0] != '[' {
      NoHeader(name, x);
    } else if ']' in name {
      HeaderByName(name, w, x);
    } else {
      HeaderByValue(name, w);
      HeaderByValue(name, x);
      if ']' in x {
        BracketIsQuoted(lib, u);
        QuotedTwice(lib, v);
      }
    }
  }

  lemma NoHeader(name: string, w: string)
    requires ReadableName(name) && name[0] != '['
    ensures SectionHeader(KeyLine(name, w)) == None
  {
  }

  // A bracket in what comes back was already there, after the same dots.
  lemma QuotedTwice(lib: Library, v: Value)
    requires PlainDoubles(lib)
    requires var u := Reread(lib, v);
             u.Str? && ']' in u.s && Written(lib, u) == "\"" + Escape(u.s) + "\""
    ensures var w, x := Written(lib, v), Written(lib, Reread(lib, v));
            ']' in w && ('.' in Before(w) ==> '.' in Before(x))
  {
    var s := Reread(lib, v).s;
    var w := Written(lib, v);
    ParseKeepsText(lib, Unquote(w), s);
    assert Unquote(w) == s;
    assert forall c :: c in Unquote(w) ==> c in w;
    BracketIsQuoted(lib, v);
    UnquoteQuoted(Escape(v.s));
    hide ParseValue, Unquote, Escape, Written, Reread;
    QuotedKeeps(s);
  }

  lemma QuotedKeeps(s: string)
    requires ']' in s
    ensures var w, x := "\"" + s + "\"", "\"" + Escape(s) + "\"";
            ']' in w && ('.' in Before(w) ==> '.' in Before(x))
  {
    BeforeQuoted(s);
    EscapeKeepsBracket(s);
    BeforeQuoted(Escape(s));
    hide Before, Escape;
    if '.' in Before(s) {
      EscapeKeepsDot(s);
    }
  }

  lemma BeforeQuoted(s: string)
    requires ']' in s
    ensures Before("\"" + s + "\"") == "\"" + Before(s)
  {
    FindWithin("\"" + s, "\"", ']');
    FindAfter("\"", s, ']');
  }

  lemma NoEntryIsHeader(lib: Library, m: Data, es: seq<Pair>, sections: seq<string>, lines: seq<string>, k: string)
    requires Returns(lib, m, es, sections, lines) && k in m && forall x :: x in m ==> KeyOk(x)
    ensures SectionHeader(KeyLine(NameOf(k), Written(lib, m[k]))) == None
  {
    hide LoadLines, SavedLines, PlainDoubles;
    var i := GivenBy(lib, m, es, sections, lines, k);
    var e := EntryAt(lib, m, es, sections, lines, i);
    EntryReads(lib, e);
    SectionIsOk(lines, i);
    var section, name := SectionAt([], lines, i), NameOf(e.0);
    hide Classify, SectionAt, SectionOk, Written, KeyLine, SectionHeader;
    assert k == FullKey(section, name);
    if section != [] {
      SplitsAtSection(section, name);
    } else {
      if '.' in e.0 {
        UnderHeader(lib, lines, i, e);
      }
      Undotted(e.0);
    }
    assert NameOf(k) == name && Reread(lib, e.1) == m[k];
    SameHeader(lib, name, e.1);
  }

  // When all keys split, an entry comes from the line of an entry.
  lemma EntryAt(lib: Library, m: Data, es: seq<Pair>, sections: seq<string>, lines: seq<string>, i: nat)
    returns (e: Pair)
    requires Lists(es, sections, m) && i < |lines| && Origin(lib, es, sections, lines, i)
    requires Classify(lines[i]).Entry? && forall x :: x in m ==> KeyOk(x)
    ensures e in es && e.0 in m && EntryOf(lib, lines, i, e) && lines[i] == LineOf(lib, e)
  {
    assert lines[i] != "";
    hide Classify, HeaderLine, LineOf, KeyOk;
    if s :| s in sections && lines[i] == HeaderLine(s) {
      HeaderReads(es, sections, m, s);
    }
    e :| e in es && EntryOf(lib, lines, i, e);
  }

  lemma HeaderReads(es: seq<Pair>, sections: seq<string>, m: Data, s: string)
    requires Lists(es, sections, m) && s in sections && forall x :: x in m ==> KeyOk(x)
    ensures Classify(HeaderLine(s)) == Header(s)
  {
    var e :| e in es && SectionOf(e.0) == s;
    assert KeyOk(e.0);
    HeaderLineReads(s);
  }

  lemma EntryReads(lib: Library, e: Pair)
    requires PlainDoubles(lib) && KeyOk(e.0) && Classify(LineOf(lib, e)).Entry?
    ensures SectionHeader(LineOf(lib, e)) == None
    ensures Classify(LineOf(lib, e)) == Entry(NameOf(e.0), Unquote(Written(lib, e.1)))
  {
    var name, w := NameOf(e.0), Written(lib, e.1);
    WrittenOk(lib, e.1);
    var line := KeyLine(name, w);
    assert line[0] == name[0] && line[|line| - 1] == w[|w| - 1];
    TrimTight(line);
    hide SectionHeader, Trim, Written, NameOf, KeyLine;
    KeyLineReads(name, w);
  }

  // ----- The round trip ----------------------------------------------------

  lemma ReadableHasNoNewline(k: string)
    requires Readable(k)
    ensures '\n' !in SectionOf(k) && '\n' !in NameOf(k)
  {
    var section, name :| IsKeyOf(k, section, name);
  }

  lemma SavedHasNoNewlines(lib: Library, m: Data, es: seq<Pair>, sections: seq<string>)
    requires PlainDoubles(lib) && Lists(es, sections, m) && forall k :: k in m ==> Readable(k)
    ensures NoNewlines(SavedLines(lib, es, sections))
  {
    var lines := SavedLines(lib, es, sections);
    hide SavedLines, Readable, PlainDoubles, Written, SectionOf, NameOf;
    forall l | l in lines ensures '\n' !in l {
      var i :| 0 <= i < |lines| && lines[i] == l;
      SavedLineOrigin(lib, es, sections, i);
      if s :| s in sections && l == HeaderLine(s) {
        var e :| e in es && SectionOf(e.0) == s;
        ReadableHasNoNewline(e.0);
      } else if e :| e in es && EntryOf(lib, lines, i, e) {
        ReadableHasNoNewline(e.0);
        WrittenOk(lib, e.1);
      }
    }
  }

  // A map can only come back if it is storable.
  lemma ReturnsStorable(lib: Library, m: Data, text: string, data: Data)
    requires PlainDoubles(lib) && IsSaved(lib, m, text) && Load(lib, data, text, Overwrite) == Loaded(m)
    ensures Storable(lib, m)
  {
    hide PlainDoubles, KeyOk;
    RoundTripNeedsReadable(lib, m, text, data);
    var es, sections :| Lists(es, sections, m) && text == Unlines(SavedLines(lib, es, sections));
    var lines := SavedLines(lib, es, sections);
    SavedHasNoNewlines(lib, m, es, sections);
    LinesUnlines(lines);
    assert LoadLines(lib, map[], START, lines, 0) == Loaded(m);
    hide Lists, SavedLines, LoadLines, Readable, Lines, Unlines;
    var n := LongestKey(m.Keys);
    forall k | k in m ensures KeyOk(k) {
      Ascends(lib, m, es, sections, lines, k, n);
    }
    forall k | k in m ensures SectionHeader(KeyLine(NameOf(k), Written(lib, m[k]))) == None {
      NoEntryIsHeader(lib, m, es, sections, lines, k);
    }
  }

  // load(save(m)) == m exactly when every key splits into a section and a name
  // that lines can give, no entry is written as a header, and every value
  // survives.
  lemma RoundTripIff(lib: Library, m: Data, text: string, data: Data)
    requires PlainDoubles(lib) && IsSaved(lib, m, text)
    ensures Load(lib, data, text, Overwrite) == Loaded(m)
       <==> Storable(lib, m) && forall k :: k in m ==> Survives(lib, m[k])
  {
    hide PlainDoubles, Load, IsSaved, RereadAll, Survives, Storable;
    if Load(lib, data, text, Overwrite) == Loaded(m) {
      ReturnsStorable(lib, m, text, data);
    }
    if Storable(lib, m) {
      SaveThenLoad(lib, m, text, data);
      RereadAllIff(lib, m);
    }
  }
}
