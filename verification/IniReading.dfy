// What the INI reader makes of characters, words, lines and files, told
// without its own functions.
module IniReading {
  import opened Basics
  import opened Ini
  import opened IniFile

  // ----- White space and separators ----------------------------------------

  // Space, tab, line feed, vertical tab, form feed, carriage return.
  predicate White(c: char) {
    c as int in {32, 9, 10, 11, 12, 13}
  }

  lemma {:induction false} TrimLeftAt(s: string) returns (a: nat)
    ensures a <= |s| && TrimLeft(s) == s[a..] && forall i :: 0 <= i < a ==> IsSpace(s[i])
  {
    if s != [] && IsSpace(s[0]) {
      var b := TrimLeftAt(s[1..]);
      a := b + 1;
      assert forall i :: 0 < i < a ==> s[i] == s[1..][i - 1];
    } else {
      a := 0;
    }
  }

  lemma {:induction false} TrimRightAt(s: string) returns (b: nat)
    ensures b <= |s| && TrimRight(s) == s[..b] && forall i :: b <= i < |s| ==> IsSpace(s[i])
  {
    if s != [] && IsSpace(s[|s| - 1]) {
      b := TrimRightAt(s[..|s| - 1]);
      assert forall i :: b <= i < |s| - 1 ==> s[i] == s[..|s| - 1][i];
    } else {
      b := |s|;
    }
  }

  // Trim cuts white space off both ends, all of it, and nothing else.
  lemma TrimAt(s: string) returns (a: nat, b: nat)
    ensures a <= b <= |s| && Trim(s) == s[a..b]
    ensures forall i :: 0 <= i < a || b <= i < |s| ==> White(s[i])
    ensures a < b ==> !White(s[a]) && !White(s[b - 1])
  {
    a := TrimLeftAt(s);
    var t := s[a..];
    var n := TrimRightAt(t);
    b := a + n;
    assert forall i :: b <= i < |s| ==> s[i] == t[i - a];
    TrimIsTight(s);
  }

  // The first c of s.
  predicate FirstAt(s: string, c: char, i: nat) {
    i < |s| && s[i] == c && c !in s[..i]
  }

  lemma FindIsFirst(s: string, c: char, i: nat)
    requires i < |s|
    ensures Find(s, c) == i <==> FirstAt(s, c, i)
  {
    var j := Find(s, c);
    assert forall k :: 0 <= k < i ==> s[..i][k] == s[k];
    assert forall k :: 0 <= k < j ==> s[..j][k] == s[k];
  }

  // ----- Lines -------------------------------------------------------------

  // The line is split at its first '=', or at its first ':' if it has no '='.
  predicate SplitAt(l: string, sep: nat) {
    FirstAt(l, '=', sep) || ('=' !in l && FirstAt(l, ':', sep))
  }

  predicate SkippedLine(l: string) {
    l == "" || l[0] == '#' || l[0] == ';'
  }

  ghost predicate HeaderOf(l: string, section: string) {
    && !SkippedLine(l) && |l| >= 3 && l[0] == '[' && section != "" && '.' !in section
    && exists i: nat :: FirstAt(l, ']', i) && i > 0 && section == Trim(l[1..i])
  }

  // One pair of quotes of the same kind is taken off.
  predicate Unquoted(w: string, v: string) {
    if |w| >= 2 && w[0] == w[|w| - 1] && (w[0] == '"' || w[0] == '\'') then v == w[1..|w| - 1] else v == w
  }

  ghost predicate EntryOfLine(l: string, key: string, value: string) {
    && !SkippedLine(l) && key != ""
    && exists sep: nat :: SplitAt(l, sep) && sep < |l| && key == Trim(l[..sep]) && Unquoted(Trim(l[sep + 1..]), value)
  }

  lemma HeaderIff(l: string, section: string)
    requires !SkippedLine(l)
    ensures SectionHeader(l) == Some(section) <==> HeaderOf(l, section)
  {
    hide Trim;
    var close := Find(l, ']');
    if close < |l| {
      FindIsFirst(l, ']', close);
    }
    if i: nat :| FirstAt(l, ']', i) && i > 0 && section == Trim(l[1..i]) {
      FindIsFirst(l, ']', i);
    }
  }

  // Where KeyValue splits the line.
  lemma SeparatorIff(l: string, sep: nat)
    requires sep < |l|
    ensures SplitAt(l, sep) <==> sep == if Find(l, '=') < |l| then Find(l, '=') else Find(l, ':')
  {
    FindIsFirst(l, '=', sep);
    FindIsFirst(l, ':', sep);
  }

  lemma KeyValueIff(l: string, key: string, value: string)
    requires !SkippedLine(l)
    ensures KeyValue(l) == Some((key, value)) <==> EntryOfLine(l, key, value)
  {
    hide Trim, Find, SplitAt;
    if KeyValue(l) == Some((key, value)) {
      var sep := if Find(l, '=') < |l| then Find(l, '=') else Find(l, ':');
      SeparatorIff(l, sep);
    }
    if sep: nat :| SplitAt(l, sep) && sep < |l| && key == Trim(l[..sep]) && Unquoted(Trim(l[sep + 1..]), value) {
      SeparatorIff(l, sep);
      NothingBefore(l[..sep]);
    }
  }

  lemma NothingBefore(s: string)
    ensures s == "" ==> Trim(s) == ""
  {
  }

  // Every line is skipped, a header, an entry or bad: skipped when nothing but
  // a comment is left of it, else a header if it can be read as one, else an
  // entry if it can be read as one.
  lemma ClassifyIff(raw: string, section: string, key: string, value: string)
    ensures var l := Trim(raw);
            && (Classify(raw) == Blank <==> SkippedLine(l))
            && (Classify(raw) == Header(section) <==> HeaderOf(l, section))
            && (Classify(raw) == Entry(key, value) <==> EntryOfLine(l, key, value) && !exists s :: HeaderOf(l, s))
  {
    var l := Trim(raw);
    hide Trim, SectionHeader, KeyValue;
    if !SkippedLine(l) {
      HeaderIff(l, section);
      KeyValueIff(l, key, value);
      if SectionHeader(l).Some? {
        HeaderIff(l, SectionHeader(l).value);
      }
      forall s ensures SectionHeader(l) == None ==> !HeaderOf(l, s) {
        HeaderIff(l, s);
      }
      hide HeaderOf, EntryOfLine;
    }
  }

  // ----- Words and numbers -------------------------------------------------

  // The word in any mixture of capital and small letters.
  predicate Spelled(s: string, word: string) {
    |s| == |word| && forall i :: 0 <= i < |s| ==> s[i] == word[i] || s[i] as int + 32 == word[i] as int
  }

  predicate SmallLetters(word: string) {
    forall c :: c in word ==> 'a' <= c <= 'z'
  }

  lemma SpelledIff(s: string, word: string)
    requires SmallLetters(word)
    ensures ToLower(s) == word <==> Spelled(s, word)
  {
    var t := ToLower(s);
    assert forall i :: 0 <= i < |word| ==> word[i] in word;
    assert |s| == |word| ==> forall i :: 0 <= i < |s| ==>
      (t[i] == word[i] <==> s[i] == word[i] || s[i] as int + 32 == word[i] as int);
    hide ToLower;
  }

  predicate MeansTrue(s: string) {
    Spelled(s, "true") || Spelled(s, "yes") || Spelled(s, "on")
  }

  predicate MeansFalse(s: string) {
    Spelled(s, "false") || Spelled(s, "no") || Spelled(s, "off")
  }

  predicate MeansNull(s: string) {
    Spelled(s, "null") || Spelled(s, "nil") || Spelled(s, "none")
  }

  lemma WordsAre(s: string)
    ensures var l := ToLower(s);
            && (MeansTrue(s) <==> l == "true" || l == "yes" || l == "on")
            && (MeansFalse(s) <==> l == "false" || l == "no" || l == "off")
            && (MeansNull(s) <==> l == "null" || l == "nil" || l == "none")
  {
    hide ToLower, Spelled;
    SpelledIff(s, "true");
    SpelledIff(s, "yes");
    SpelledIff(s, "on");
    SpelledIff(s, "false");
    SpelledIff(s, "no");
    SpelledIff(s, "off");
    SpelledIff(s, "null");
    SpelledIff(s, "nil");
    SpelledIff(s, "none");
  }

  // What each text is read as: the nine words in any letters, then numbers with
  // a point, then whole 32-bit numbers, and else the text itself.
  lemma ParseValueIff(lib: Library, s: string)
    ensures ParseValue(lib, s) == Bool(true) <==> MeansTrue(s)
    ensures ParseValue(lib, s) == Bool(false) <==> MeansFalse(s)
    ensures ParseValue(lib, s) == Null <==> MeansNull(s)
    ensures var word := MeansTrue(s) || MeansFalse(s) || MeansNull(s);
            && (forall d :: ParseValue(lib, s) == Double(d) <==> !word && '.' in s && lib.stod(s) == Some(d))
            && (forall i: int32 :: ParseValue(lib, s) == Int(i) <==> !word && '.' !in s && WholeIntOf(s, i))
            && (forall t :: ParseValue(lib, s) == Str(t) <==>
                  t == s && !word && if '.' in s then lib.stod(s) == None else !WholeInt(s))
  {
    WordsAre(s);
    ParseIntIff(s);
    forall i: int32 ensures ParseInt(s) == Some(i) <==> WholeIntOf(s, i) {
      ParseIntValue(s, i);
    }
    NothingIsNoNumber();
    hide ToLower, ParseInt, WholeInt, WholeIntOf, MeansTrue, MeansFalse, MeansNull;
  }

  lemma NothingIsNoNumber()
    ensures ParseInt("") == None && !MeansTrue("") && !MeansFalse("") && !MeansNull("")
  {
  }

  // A line `key = w` by itself makes one entry.
  lemma LineLoads(lib: Library, data: Data, key: string, w: string)
    requires LineOk(key, w) && TextOk(w)
    ensures Load(lib, data, key + " = " + w + "\n", Overwrite) == Loaded(map[key := ParseValue(lib, Unquote(w))])
  {
    var line, start := KeyLine(key, w), Loading(map[], []);
    KeyLineReads(key, w);
    hide LineOk, TextOk, Classify, ParseValue, Unquote;
    LinesUnlines([line]);
    assert Unlines([line]) == line + "\n" && [line][1..] == [];
    hide Lines, Unlines;
    assert LoadLines(lib, map[], start, [line], 0)
        == LoadLines(lib, map[], start.(data := map[key := ParseValue(lib, Unquote(w))]), [], 1);
  }

  // So `key = word` gives what the word means.
  lemma WordLineLoads(lib: Library, data: Data, key: string, word: string)
    requires ReadableName(key) && key[0] != '[' && word != "" && forall c :: c in word ==> IsLetter(c)
    ensures var v := if MeansTrue(word) then Bool(true)
                     else if MeansFalse(word) then Bool(false)
                     else if MeansNull(word) then Null
                     else Str(word);
            Load(lib, data, key + " = " + word + "\n", Overwrite) == Loaded(map[key := v])
  {
    assert word[0] in word && word[|word| - 1] in word;
    assert Unquote(word) == word && LineOk(key, word) && TextOk(word);
    hide Load, LineOk, TextOk, Unquote;
    LineLoads(lib, data, key, word);
    ParseValueIff(lib, word);
    NoDigits(word);
    hide ParseValue, MeansTrue, MeansFalse, MeansNull, WholeIntOf, WholeInt;
  }

  lemma WholeHasDigit(s: string)
    requires WholeInt(s)
    ensures exists c :: c in s && IsDigit(c)
  {
    var space, sign, digits :| s == space + sign + digits && IsWholeInt(space, sign, digits);
    assert digits[0] in digits && digits[0] in s;
  }

  lemma NoDigits(word: string)
    requires word != "" && forall c :: c in word ==> IsLetter(c)
    ensures '.' !in word && !WholeInt(word)
  {
    if WholeInt(word) {
      WholeHasDigit(word);
    }
  }

  // ----- Whole files -------------------------------------------------------

  // The last line counts even without a line feed at its end.
  lemma {:induction false} LastLine(lines: seq<string>, last: string)
    requires (forall l :: l in lines ==> '\n' !in l) && '\n' !in last && last != ""
    ensures Lines(Unlines(lines) + last) == lines + [last]
    decreases |lines|
  {
    hide Lines, Unlines;
    if lines == [] {
      NoLines(lines);
      OnlyLine(last);
      assert Unlines(lines) + last == last && lines + [last] == [last];
    } else {
      TextSplits(lines, last);
      LastLine(lines[1..], last);
      FirstLine(lines[0], Unlines(lines[1..]) + last);
      assert lines + [last] == [lines[0]] + (lines[1..] + [last]);
    }
  }

  lemma NoLines(lines: seq<string>)
    requires lines == []
    ensures Unlines(lines) == ""
  {
  }

  lemma TextSplits(lines: seq<string>, last: string)
    requires lines != []
    ensures Unlines(lines) + last == lines[0] + ['\n'] + (Unlines(lines[1..]) + last)
  {
  }

  lemma OnlyLine(last: string)
    requires '\n' !in last && last != ""
    ensures Lines(last) == [last]
  {
    assert Find(last, '\n') == |last| && last[..|last|] == last;
    assert GetLine(last) == (last, "");
    hide GetLine;
  }

  lemma FirstLine(l: string, rest: string)
    requires '\n' !in l
    ensures Lines(l + ['\n'] + rest) == [l] + Lines(rest)
  {
    var text := l + ['\n'] + rest;
    FindFirst(l, '\n', rest);
    assert text[..|l|] == l && text[|l| + 1..] == rest;
    assert GetLine(text) == (l, rest);
    hide GetLine;
  }

  // The section in force after these lines.
  function SectionAfter(section: string, lines: seq<string>): string {
    if lines == [] then section
    else
      match Classify(lines[|lines| - 1])
      case Header(s) => s
      case _ => SectionAfter(section, lines[..|lines| - 1])
  }

  // One more line: an entry goes under the section before it, replacing what
  // the same key had, a bad line stops the loading, other lines add nothing.
  lemma {:induction false} LoadNext(lib: Library, st: Loading, lines: seq<string>, line: string, done: nat)
    requires LoadLines(lib, map[], st, lines, done).Loaded?
    ensures var was := LoadLines(lib, map[], st, lines, done).data;
            var now := LoadLines(lib, map[], st, lines + [line], done);
            match Classify(line)
            case Blank => now == Loaded(was)
            case Header(_) => now == Loaded(was)
            case Entry(key, value) =>
              var section := SectionAfter(st.section, lines);
              now == Loaded(was[(if section == "" then key else section + "." + key) := ParseValue(lib, value)])
            case Bad => now == ParseError(done + |lines| + 1, Trim(line), was)
    decreases |lines|
  {
    hide Classify, ParseValue, Trim;
    if lines == [] {
      assert [] + [line] == [line] && [line][1..] == [];
    } else {
      var u := Step(lib, map[], st, Classify(lines[0]));
      LoadNext(lib, u, lines[1..], line, done + 1);
      assert (lines + [line])[1..] == lines[1..] + [line];
      SectionAfterCons(st.section, lines, u.section);
    }
  }

  // After a bad line nothing is read any more.
  lemma {:induction false} LoadStopped(lib: Library, st: Loading, lines: seq<string>, more: seq<string>, done: nat)
    requires LoadLines(lib, map[], st, lines, done).ParseError?
    ensures LoadLines(lib, map[], st, lines + more, done) == LoadLines(lib, map[], st, lines, done)
    decreases |lines|
  {
    hide Classify, Step, Trim;
    assert lines != [] && (lines + more)[0] == lines[0] && (lines + more)[1..] == lines[1..] + more;
    if Classify(lines[0]) != Bad {
      LoadStopped(lib, Step(lib, map[], st, Classify(lines[0])), lines[1..], more, done + 1);
    }
  }

  lemma {:induction false} SectionAfterCons(section: string, lines: seq<string>, next: string)
    requires lines != []
    requires next == match Classify(lines[0]) case Header(s) => s case _ => section
    ensures SectionAfter(section, lines) == SectionAfter(next, lines[1..])
    decreases |lines|
  {
    hide Classify;
    if |lines| == 1 {
      assert lines[..0] == [] && lines[1..] == [];
    } else {
      var init := lines[..|lines| - 1];
      SectionAfterCons(section, init, next);
      assert lines[1..][..|lines| - 2] == init[1..];
    }
  }
}
