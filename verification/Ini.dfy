// The INI text format: what load reads, what save writes, and how they meet.
module Ini {
  import opened Basics

  type int32 = n: int | -0x8000_0000 <= n < 0x8000_0000

  datatype Value = Null | Bool(b: bool) | Int(i: int32) | Double(v: real) | Str(s: string)

  // The C++ library: what stod makes of a text it reads to the end, and how a
  // stream prints a double.
  datatype Library = Library(stod: string -> Option<real>, show: real -> string)

  // ----- Characters and small string functions -----------------------------

  predicate IsSpace(c: char) {
    c == ' ' || '\t' <= c <= '\r'
  }

  predicate IsDigit(c: char) {
    '0' <= c <= '9'
  }

  function Lower(c: char): char {
    if 'A' <= c <= 'Z' then (c as int + 32) as char else c
  }

  function ToLower(s: string): (r: string)
    ensures |r| == |s| && forall i :: 0 <= i < |s| ==> r[i] == Lower(s[i])
  {
    if s == [] then [] else [Lower(s[0])] + ToLower(s[1..])
  }

  function TrimLeft(s: string): string {
    if s != [] && IsSpace(s[0]) then TrimLeft(s[1..]) else s
  }

  function TrimRight(s: string): string {
    if s != [] && IsSpace(s[|s| - 1]) then TrimRight(s[..|s| - 1]) else s
  }

  function Trim(s: string): string {
    TrimRight(TrimLeft(s))
  }

  // The first index of c, or |s|.
  function Find(s: string, c: char): (i: nat)
    ensures i <= |s|
    ensures i < |s| ==> s[i] == c
    ensures c !in s[..i]
    ensures c !in s <==> i == |s|
  {
    if s == [] then 0
    else if s[0] == c then 0
    else
      var j := Find(s[1..], c);
      assert s[..j + 1] == [s[0]] + s[1..][..j];
      j + 1
  }

  lemma {:induction false} FindFirst(a: string, c: char, b: string)
    requires c !in a
    ensures Find(a + [c] + b, c) == |a|
  {
    var s := a + [c] + b;
    if a == [] {
    } else {
      assert s[0] == a[0] && a[0] in a;
      assert s[1..] == a[1..] + [c] + b;
      FindFirst(a[1..], c, b);
    }
  }

  // Not empty, and no white space at either end.
  predicate Tight(s: string) {
    s != [] && !IsSpace(s[0]) && !IsSpace(s[|s| - 1])
  }

  lemma TrimTight(s: string)
    requires Tight(s)
    ensures Trim(s) == s
  {
  }

  lemma TrimSpaceAfter(s: string)
    requires Tight(s)
    ensures Trim(s + " ") == s
  {
    var t := s + " ";
    assert t[0] == s[0] && t[|t| - 1] == ' ' && t[..|t| - 1] == s;
    assert TrimLeft(t) == t;
    assert TrimRight(t) == TrimRight(s) == s;
  }

  lemma TrimSpaceBefore(s: string)
    requires Tight(s)
    ensures Trim(" " + s) == s
  {
    var t := " " + s;
    assert t[0] == ' ' && t[1..] == s;
    assert TrimLeft(t) == TrimLeft(s) == s;
  }

  // ----- Lines -------------------------------------------------------------

  // getline: up to the newline, which is dropped.
  function GetLine(text: string): (r: (string, string))
    requires text != []
    ensures |r.1| < |text| && '\n' !in r.0
    ensures text == r.0 + r.1 || text == r.0 + "\n" + r.1
  {
    var i := Find(text, '\n');
    (text[..i], if i < |text| then text[i + 1..] else [])
  }

  function Lines(text: string): seq<string>
    decreases |text|
  {
    if text == [] then [] else [GetLine(text).0] + Lines(GetLine(text).1)
  }

  function Unlines(lines: seq<string>): string {
    if lines == [] then [] else lines[0] + "\n" + Unlines(lines[1..])
  }

  lemma {:induction false} LinesUnlines(lines: seq<string>)
    requires forall l :: l in lines ==> '\n' !in l
    ensures Lines(Unlines(lines)) == lines
    decreases |lines|
  {
    if lines == [] {
    } else {
      var l, rest := lines[0], Unlines(lines[1..]);
      var text := l + "\n" + rest;
      FindFirst(l, '\n', rest);
      assert text[..|l|] == l && text[|l| + 1..] == rest;
      assert GetLine(text) == (l, rest);
      LinesUnlines(lines[1..]);
    }
  }

  lemma {:induction false} UnlinesConcat(a: seq<string>, b: seq<string>)
    ensures Unlines(a + b) == Unlines(a) + Unlines(b)
  {
    if a == [] {
      assert a + b == b;
    } else {
      assert (a + b)[1..] == a[1..] + b;
      UnlinesConcat(a[1..], b);
    }
  }

  // ----- Reading one line --------------------------------------------------

  datatype Kind = Blank | Header(section: string) | Entry(key: string, value: string) | Bad

  predicate IsComment(line: string) {
    line != [] && (line[0] == '#' || line[0] == ';')
  }

  // is_section_header
  function SectionHeader(line: string): Option<string> {
    if |line| < 3 || line[0] != '[' then None
    else
      var close := Find(line, ']');
      if close == |line| then None
      else
        var section := Trim(line[1..close]);
        if section == [] || '.' in section then None else Some(section)
  }

  // A pair of equal quotes around the value is dropped.
  predicate Wrapped(w: string) {
    |w| >= 2 && w[0] == w[|w| - 1] && (w[0] == '"' || w[0] == '\'')
  }

  function Unquote(w: string): string {
    if Wrapped(w) then w[1..|w| - 1] else w
  }

  // parse_key_value
  function KeyValue(line: string): Option<(string, string)> {
    var eq := Find(line, '=');
    var sep := if eq < |line| then eq else Find(line, ':');
    if sep == |line| || sep == 0 then None
    else
      var key := Trim(line[..sep]);
      if key == [] then None else Some((key, Unquote(Trim(line[sep + 1..]))))
  }

  function Classify(raw: string): Kind {
    var line := Trim(raw);
    if line == [] || IsComment(line) then Blank
    else
      match SectionHeader(line)
      case Some(section) => Header(section)
      case None =>
        match KeyValue(line)
        case Some(kv) => Entry(kv.0, kv.1)
        case None => Bad
  }

  // ----- Numbers -----------------------------------------------------------

  function Digits(n: nat): (s: string)
    ensures s != [] && forall c :: c in s ==> IsDigit(c)
  {
    var d := [('0' as int + n % 10) as char];
    if n < 10 then d else Digits(n / 10) + d
  }

  function PrintInt(i: int): string {
    if i < 0 then "-" + Digits(-i) else Digits(i)
  }

  function DigitsValue(s: string): nat
    requires forall c :: c in s ==> IsDigit(c)
  {
    if s == [] then 0
    else
      var last := s[|s| - 1];
      assert forall c :: c in s[..|s| - 1] ==> c in s;
      assert last in s && IsDigit(last);
      10 * DigitsValue(s[..|s| - 1]) + (last as int - '0' as int)
  }

  // stoi, when it consumes the whole string and the result is in range.
  function ParseInt(s: string): Option<int32> {
    var t := TrimLeft(s);
    var signed := t != [] && (t[0] == '-' || t[0] == '+');
    var digits := if signed then t[1..] else t;
    if digits == [] || exists c :: c in digits && !IsDigit(c) then None
    else
      var n: int := DigitsValue(digits);
      var i: int := if signed && t[0] == '-' then -n else n;
      if -0x8000_0000 <= i < 0x8000_0000 then Some(i) else None
  }

  lemma {:induction false} DigitsRoundTrip(n: nat)
    ensures DigitsValue(Digits(n)) == n
  {
    if n < 10 {
      assert Digits(n)[..0] == [];
    } else {
      DigitsRoundTrip(n / 10);
      var p, d := Digits(n / 10), [('0' as int + n % 10) as char];
      assert (p + d)[..|p|] == p;
    }
  }

  // Decimal, the last digit the ones.
  lemma DigitsValueSnoc(s: string, n: nat)
    requires (forall c :: c in s ==> IsDigit(c)) && n < 10
    ensures DigitsValue(s + ["0123456789"[n]]) == 10 * DigitsValue(s) + n && DigitsValue("") == 0
  {
    var t := s + ["0123456789"[n]];
    assert t[..|t| - 1] == s;
  }

  lemma ParsePositive(d: string)
    requires d != [] && forall c :: c in d ==> IsDigit(c)
    requires DigitsValue(d) < 0x8000_0000
    ensures ParseInt(d) == Some(DigitsValue(d))
  {
    assert d[0] in d;
    hide DigitsValue;
  }

  lemma ParseNegative(d: string)
    requires d != [] && forall c :: c in d ==> IsDigit(c)
    requires DigitsValue(d) <= 0x8000_0000
    ensures ParseInt("-" + d) == Some(0 - DigitsValue(d))
  {
    assert ("-" + d)[0] == '-' && ("-" + d)[1..] == d;
    hide DigitsValue;
  }

  lemma IntRoundTrip(i: int32)
    ensures ParseInt(PrintInt(i)) == Some(i)
  {
    hide ParseInt, Digits, DigitsValue;
    var n: int := i;
    if n < 0 {
      DigitsRoundTrip(-n);
      ParseNegative(Digits(-n));
    } else {
      DigitsRoundTrip(n);
      ParsePositive(Digits(n));
    }
  }

  lemma PrintIntShape(i: int)
    ensures Tight(PrintInt(i)) && '.' !in PrintInt(i) && '\n' !in PrintInt(i) && !Wrapped(PrintInt(i))
    ensures IsDigit(PrintInt(i)[0]) || PrintInt(i)[0] == '-'
  {
    var d := Digits(if i < 0 then -i else i);
    assert d[0] in d && d[|d| - 1] in d;
    hide Digits;
  }

  // ----- Values ------------------------------------------------------------

  // parse_value
  function ParseValue(lib: Library, s: string): Value {
    if s == [] then Str(s)
    else
      var l := ToLower(s);
      if l == "true" || l == "yes" || l == "on" then Bool(true)
      else if l == "false" || l == "no" || l == "off" then Bool(false)
      else if l == "null" || l == "nil" || l == "none" then Null
      else if '.' in s then
        (match lib.stod(s)
         case Some(v) => Double(v)
         case None => Str(s))
      else
        match ParseInt(s)
        case Some(i) => Int(i)
        case None => Str(s)
  }

  predicate IsSpecial(c: char) {
    IsSpace(c) || c == '#' || c == ';' || c == '=' || c == ':' || c == '[' || c == ']'
  }

  predicate NeedsQuoting(s: string) {
    s == [] || exists c :: c in s && IsSpecial(c)
  }

  function EscapeChar(c: char): string {
    match c
    case '"' => "\\\""
    case '\\' => "\\\\"
    case '\n' => "\\n"
    case '\r' => "\\r"
    case '\t' => "\\t"
    case _ => [c]
  }

  function Escape(s: string): string {
    if s == [] then [] else EscapeChar(s[0]) + Escape(s[1..])
  }

  // Escaping goes character by character, and changes five of them.
  lemma {:induction false} EscapeConcat(a: string, b: string)
    ensures Escape(a + b) == Escape(a) + Escape(b)
  {
    if a == [] {
      assert a + b == b;
    } else {
      hide EscapeChar;
      EscapeConcat(a[1..], b);
      assert (a + b)[1..] == a[1..] + b && (a + b)[0] == a[0];
      JoinText(EscapeChar(a[0]), Escape(a[1..]), Escape(b));
    }
  }

  lemma JoinText(a: string, b: string, c: string)
    ensures a + (b + c) == (a + b) + c
  {
  }

  lemma EscapeOne(c: char)
    ensures Escape("\"") == "\\\"" && Escape("\\") == "\\\\"
    ensures Escape("\n") == "\\n" && Escape("\r") == "\\r" && Escape("\t") == "\\t"
    ensures c !in "\"\\\n\r\t" ==> Escape([c]) == [c]
  {
    assert Escape([]) == [];
  }

  // What write_key_value puts after the equals sign.
  function Written(lib: Library, v: Value): string {
    match v
    case Str(s) => if NeedsQuoting(s) then "\"" + Escape(s) + "\"" else s
    case Int(i) => PrintInt(i)
    case Double(d) => lib.show(d)
    case Bool(b) => if b then "true" else "false"
    case Null => "null"
  }

  // What reading back makes of a value.
  function Reread(lib: Library, v: Value): Value {
    ParseValue(lib, Unquote(Written(lib, v)))
  }

  predicate Escaped(s: string) {
    exists c :: c in s && (c == '"' || c == '\\' || c == '\n' || c == '\r' || c == '\t')
  }

  predicate IsReserved(s: string) {
    var l := ToLower(s);
    l in {"true", "yes", "on", "false", "no", "off", "null", "nil", "none"}
  }

  // White space, an optional sign and digits, together a 32-bit number.
  ghost predicate WholeInt(s: string) {
    exists space, sign, digits :: s == space + sign + digits && IsWholeInt(space, sign, digits)
  }

  predicate IsWholeInt(space: string, sign: string, digits: string) {
    && (forall c :: c in space ==> IsSpace(c)) && (sign == "" || sign == "+" || sign == "-")
    && digits != [] && (forall c :: c in digits ==> IsDigit(c))
    && var n: int := DigitsValue(digits); if sign == "-" then n <= 0x8000_0000 else n < 0x8000_0000
  }

  // A complete number, with a decimal point or without.
  ghost predicate IsNumber(lib: Library, s: string) {
    if '.' in s then lib.stod(s).Some? else WholeInt(s)
  }

  // The values that come back: null, booleans and integers always; a double
  // whose print has a point and is read as that double; a string that is no
  // reserved word and no number, is not escaped inside its quotes, and does
  // not itself look quoted.
  ghost predicate Survives(lib: Library, v: Value) {
    match v
    case Str(s) =>
      && (s == [] || (!IsReserved(s) && !IsNumber(lib, s)))
      && if NeedsQuoting(s) then !Escaped(s) else !Wrapped(s)
    case Double(d) => '.' in lib.show(d) && lib.stod(lib.show(d)) == Some(d)
    case _ => true
  }

  lemma {:induction false} TrimLeftSplit(s: string) returns (space: string)
    ensures s == space + TrimLeft(s) && forall c :: c in space ==> IsSpace(c)
  {
    if s != [] && IsSpace(s[0]) {
      var more := TrimLeftSplit(s[1..]);
      space := [s[0]] + more;
    } else {
      space := [];
    }
  }

  lemma {:induction false} TrimLeftSpaces(space: string, rest: string)
    requires (forall c :: c in space ==> IsSpace(c)) && rest != [] && !IsSpace(rest[0])
    ensures TrimLeft(space + rest) == rest
  {
    if space == [] {
      assert space + rest == rest;
    } else {
      assert space[0] in space && (space + rest)[1..] == space[1..] + rest;
      TrimLeftSpaces(space[1..], rest);
    }
  }

  lemma ParsedIsWhole(s: string)
    requires ParseInt(s).Some?
    ensures WholeInt(s)
  {
    hide DigitsValue, TrimLeft;
    var t := TrimLeft(s);
    var space := TrimLeftSplit(s);
    var sign := if t[0] == '-' || t[0] == '+' then [t[0]] else "";
    var digits := t[|sign|..];
    assert s == space + sign + digits;
    assert IsWholeInt(space, sign, digits);
  }

  lemma WholeIsParsed(space: string, sign: string, digits: string)
    requires IsWholeInt(space, sign, digits)
    ensures ParseInt(space + sign + digits)
         == Some(if sign == "-" then 0 - DigitsValue(digits) else DigitsValue(digits))
  {
    var t := sign + digits;
    assert digits[0] in digits && !IsSpace(t[0]);
    assert space + sign + digits == space + t;
    TrimLeftSpaces(space, t);
    hide DigitsValue, TrimLeft;
    if sign == "" {
      assert t == digits && IsDigit(t[0]);
    } else {
      assert t[0] == sign[0] && t[1..] == digits;
    }
  }

  // stoi consumes the whole text exactly when it is a whole 32-bit number.
  lemma ParseIntIff(s: string)
    ensures ParseInt(s).Some? <==> WholeInt(s)
  {
    hide ParseInt, IsWholeInt;
    if ParseInt(s).Some? {
      ParsedIsWhole(s);
    }
    if WholeInt(s) {
      var space, sign, digits :| s == space + sign + digits && IsWholeInt(space, sign, digits);
      WholeIsParsed(space, sign, digits);
    }
  }

  // And then it gives that number.
  predicate WholeIntIs(space: string, sign: string, digits: string, i: int) {
    IsWholeInt(space, sign, digits) && i == if sign == "-" then 0 - DigitsValue(digits) else DigitsValue(digits)
  }

  ghost predicate WholeIntOf(s: string, i: int) {
    exists space, sign, digits :: s == space + sign + digits && WholeIntIs(space, sign, digits, i)
  }

  lemma ParseIntValue(s: string, i: int32)
    ensures ParseInt(s) == Some(i) <==> WholeIntOf(s, i)
  {
    hide ParseInt;
    if ParseInt(s) == Some(i) {
      ParsedIsWhole(s);
      var space, sign, digits :| s == space + sign + digits && IsWholeInt(space, sign, digits);
      WholeIsParsed(space, sign, digits);
      assert WholeIntIs(space, sign, digits, i);
    }
    if space, sign, digits :| s == space + sign + digits && WholeIntIs(space, sign, digits, i) {
      WholeIsParsed(space, sign, digits);
    }
  }

  // A text stays a text exactly when it is empty, or neither a reserved word
  // nor a number.
  lemma StaysTextIff(lib: Library, s: string)
    ensures ParseValue(lib, s) == Str(s) <==> s == [] || (!IsReserved(s) && !IsNumber(lib, s))
  {
    hide ToLower, ParseInt, WholeInt;
    ParseIntIff(s);
  }

  lemma {:induction false} EscapeFacts(s: string)
    ensures |Escape(s)| >= |s|
    ensures Escape(s) == s <==> !Escaped(s)
    ensures Escaped(s) ==> |Escape(s)| > |s|
    ensures '\n' !in Escape(s)
  {
    if s == [] {
    } else {
      EscapeFacts(s[1..]);
      var e, c := Escape(s[1..]), s[0];
      assert '\n' !in EscapeChar(c) && |EscapeChar(c)| >= 1;
      if c == '"' || c == '\\' || c == '\n' || c == '\r' || c == '\t' {
        assert c in s && |EscapeChar(c)| == 2;
      } else {
        assert EscapeChar(c) == [c];
        assert s == [c] + s[1..];
        assert Escaped(s) <==> Escaped(s[1..]) by {
          EscapedTail(s);
        }
      }
    }
  }

  lemma EscapedTail(s: string)
    requires s != [] && EscapeChar(s[0]) == [s[0]]
    ensures Escaped(s) <==> Escaped(s[1..])
  {
    assert forall c :: c in s <==> c == s[0] || c in s[1..];
  }

  lemma ParseKeepsText(lib: Library, t: string, s: string)
    ensures ParseValue(lib, t) == Str(s) ==> t == s
  {
    hide ToLower, ParseInt;
  }

  // What a string is read back from.
  lemma RereadString(lib: Library, s: string)
    ensures NeedsQuoting(s) ==> Reread(lib, Str(s)) == ParseValue(lib, Escape(s))
    ensures !NeedsQuoting(s) ==> Reread(lib, Str(s)) == ParseValue(lib, if Wrapped(s) then s[1..|s| - 1] else s)
  {
    assert Wrapped(s) ==> |s| >= 2;
    hide ParseValue, Escape, NeedsQuoting, Unquote, Wrapped;
    UnquoteQuoted(Escape(s));
    UnquoteMeans(s);
  }

  lemma UnquoteQuoted(e: string)
    ensures Unquote("\"" + e + "\"") == e
  {
    var w := "\"" + e + "\"";
    assert |w| == |e| + 2 && w[0] == '"' && w[|w| - 1] == '"' && w[1..|w| - 1] == e;
  }

  lemma UnquoteMeans(s: string)
    ensures Unquote(s) == if Wrapped(s) then s[1..|s| - 1] else s
  {
  }

  // A string comes back exactly when it survives.
  lemma StringSurvivesIff(lib: Library, s: string)
    ensures Reread(lib, Str(s)) == Str(s) <==> Survives(lib, Str(s))
  {
    RereadString(lib, s);
    EscapeFacts(s);
    StaysTextIff(lib, s);
    ParseKeepsText(lib, Escape(s), s);
    if Wrapped(s) {
      ParseKeepsText(lib, s[1..|s| - 1], s);
    }
    hide ParseValue, IsReserved, IsNumber, Reread, Escape, Escaped, NeedsQuoting;
  }

  lemma ScalarsSurvive(lib: Library, v: Value)
    requires v.Null? || v.Bool? || v.Int?
    ensures Reread(lib, v) == v
  {
    match v
    case Null => assert ToLower("null") == "null";
    case Bool(b) =>
      assert ToLower("true") == "true";
      assert ToLower("false") == "false";
    case Int(i) =>
      var t := PrintInt(i);
      IntRoundTrip(i);
      PrintIntShape(i);
      NotAWord(t);
  }

  // The reserved words begin with letters.
  lemma NotAWord(t: string)
    requires t != [] && (IsDigit(t[0]) || t[0] == '-')
    ensures var l := ToLower(t);
            && l != "true" && l != "yes" && l != "on" && l != "false" && l != "no" && l != "off"
            && l != "null" && l != "nil" && l != "none"
  {
    assert ToLower(t)[0] == t[0];
  }

  // Streams print doubles with digits, signs, a point and an exponent only.
  ghost predicate PlainDoubles(lib: Library) {
    forall d :: IsPlainDouble(lib.show(d))
  }

  predicate IsPlainDouble(t: string) {
    t != [] && forall c :: c in t ==> IsDigit(c) || c == '+' || c == '-' || c == '.' || c == 'e'
  }

  lemma PlainDoubleShape(t: string)
    requires IsPlainDouble(t)
    ensures TextOk(t) && !Wrapped(t) && !IsReserved(t)
  {
    assert t[0] in t && t[|t| - 1] in t;
    assert ToLower(t)[0] == t[0];
  }

  lemma DoubleSurvivesIff(lib: Library, d: real)
    requires PlainDoubles(lib)
    ensures Reread(lib, Double(d)) == Double(d) <==> Survives(lib, Double(d))
  {
    var t := lib.show(d);
    PlainDoubleShape(t);
    hide PlainDoubles, IsPlainDouble, ParseInt, Tight;
    assert Unquote(t) == t;
    hide Wrapped, Unquote;
    ReadsAsDouble(lib, t, d);
  }

  lemma ReadsAsDouble(lib: Library, t: string, d: real)
    requires t != [] && !IsReserved(t)
    ensures ParseValue(lib, t) == Double(d) <==> '.' in t && lib.stod(t) == Some(d)
  {
    hide ParseInt, ToLower;
  }

  lemma SurvivesIff(lib: Library, v: Value)
    requires PlainDoubles(lib)
    ensures Reread(lib, v) == v <==> Survives(lib, v)
  {
    hide Reread, PlainDoubles;
    if v.Str? {
      StringSurvivesIff(lib, v.s);
    } else if v.Double? {
      DoubleSurvivesIff(lib, v.v);
    } else {
      ScalarsSurvive(lib, v);
    }
  }

  predicate TextOk(w: string) {
    Tight(w) && '\n' !in w
  }

  // ----- Writing and reading one line --------------------------------------

  function KeyLine(key: string, w: string): string {
    key + " = " + w
  }

  function HeaderLine(section: string): string {
    "[" + section + "]"
  }

  // A name that some line can give.
  predicate ReadableName(key: string) {
    Tight(key) && '=' !in key && '\n' !in key && !IsComment(key)
  }

  // And the line written for it does not read as a section header.
  predicate LineOk(key: string, w: string) {
    ReadableName(key) && SectionHeader(KeyLine(key, w)) == None
  }

  predicate SectionOk(section: string) {
    Tight(section) && '.' !in section && ']' !in section && '\n' !in section
  }

  lemma KeyLineReads(key: string, w: string)
    requires LineOk(key, w) && TextOk(w)
    ensures Classify(KeyLine(key, w)) == Entry(key, Unquote(w))
    ensures '\n' !in KeyLine(key, w)
  {
    var line := KeyLine(key, w);
    assert line[0] == key[0] && line[|line| - 1] == w[|w| - 1];
    TrimTight(line);
    KeyLineSplits(key, w);
    TrimSpaceAfter(key);
    TrimSpaceBefore(w);
    hide Trim, Find, SectionHeader;
  }

  lemma KeyLineSplits(key: string, w: string)
    requires '=' !in key
    ensures var line := KeyLine(key, w);
            Find(line, '=') == |key| + 1 < |line| && line[..|key| + 1] == key + " " && line[|key| + 2..] == " " + w
  {
    assert KeyLine(key, w) == (key + " ") + ['='] + (" " + w);
    FindFirst(key + " ", '=', " " + w);
  }

  // What Trim leaves is tight, or nothing, and lies inside the text.
  lemma TrimIsTight(s: string)
    ensures Trim(s) == [] || Tight(Trim(s))
    ensures forall c :: c in Trim(s) ==> c in s
  {
    var t := TrimLeft(s);
    TrimLeftInside(s);
    TrimRightInside(t);
  }

  lemma {:induction false} TrimLeftInside(s: string)
    ensures TrimLeft(s) == [] || !IsSpace(TrimLeft(s)[0])
    ensures forall c :: c in TrimLeft(s) ==> c in s
  {
    if s != [] && IsSpace(s[0]) {
      TrimLeftInside(s[1..]);
    }
  }

  lemma {:induction false} TrimRightInside(s: string)
    ensures TrimRight(s) == [] || (TrimRight(s)[0] == s[0] && !IsSpace(TrimRight(s)[|TrimRight(s)| - 1]))
    ensures forall c :: c in TrimRight(s) ==> c in s
    ensures |TrimRight(s)| <= |s|
  {
    if s != [] && IsSpace(s[|s| - 1]) {
      TrimRightInside(s[..|s| - 1]);
    }
  }

  // Whatever stands in a line, only readable names and sections come of it.
  lemma OnlyReadable(raw: string)
    requires '\n' !in raw
    ensures Classify(raw).Header? ==> SectionOk(Classify(raw).section)
    ensures Classify(raw).Entry? ==> ReadableName(Classify(raw).key)
  {
    var line := Trim(raw);
    TrimIsTight(raw);
    hide Trim;
    if line != [] && !IsComment(line) {
      if SectionHeader(line).Some? {
        TrimIsTight(line[1..Find(line, ']')]);
      } else if KeyValue(line).Some? {
        KeyIsReadable(line);
      }
    }
  }

  lemma KeyIsReadable(line: string)
    requires Tight(line) && '\n' !in line && !IsComment(line) && KeyValue(line).Some?
    ensures ReadableName(KeyValue(line).value.0)
  {
    var eq := Find(line, '=');
    var sep := if eq < |line| then eq else Find(line, ':');
    var part := line[..sep];
    TrimIsTight(part);
    TrimFirst(part);
    hide Trim;
  }

  lemma TrimFirst(s: string)
    requires s != [] && !IsSpace(s[0])
    ensures Trim(s) != [] && Trim(s)[0] == s[0]
  {
    assert TrimLeft(s) == s;
    TrimRightKeepsFirst(s);
  }

  lemma {:induction false} TrimRightKeepsFirst(s: string)
    requires s != [] && !IsSpace(s[0])
    ensures TrimRight(s) != [] && TrimRight(s)[0] == s[0]
  {
    if IsSpace(s[|s| - 1]) {
      TrimRightKeepsFirst(s[..|s| - 1]);
    }
  }

  lemma HeaderLineReads(section: string)
    requires SectionOk(section)
    ensures Classify(HeaderLine(section)) == Header(section)
    ensures '\n' !in HeaderLine(section)
  {
    var line := HeaderLine(section);
    TrimTight(line);
    assert line == ("[" + section) + [']'] + [];
    FindFirst("[" + section, ']', []);
    assert line[1..|section| + 1] == section;
    TrimTight(section);
    hide Trim, Find;
  }

  lemma WrittenOk(lib: Library, v: Value)
    requires PlainDoubles(lib)
    ensures TextOk(Written(lib, v))
  {
    match v
    case Str(s) =>
      EscapeFacts(s);
      if !NeedsQuoting(s) {
        assert s[0] in s && s[|s| - 1] in s && IsSpecial('\n');
      }
    case Int(i) => PrintIntShape(i);
    case Double(d) => PlainDoubleShape(lib.show(d));
    case Bool(_) =>
    case Null =>
  }

  predicate IsLetter(c: char) {
    'a' <= c <= 'z' || 'A' <= c <= 'Z'
  }

  // stod reads no text that begins with a letter and contains a point.
  ghost predicate LettersAreNoDoubles(lib: Library) {
    forall t :: t != [] && IsLetter(t[0]) && '.' in t ==> lib.stod(t) == None
  }

  // A plain word always survives.
  lemma PlainWordSurvives(lib: Library, s: string)
    requires LettersAreNoDoubles(lib)
    requires s != [] && IsLetter(s[0]) && !IsReserved(s) && forall c :: c in s ==> !IsSpecial(c)
    ensures Survives(lib, Str(s))
  {
    assert s[0] in s && !IsDigit(s[0]) && !IsSpace(s[0]);
    assert ParseInt(s) == None;
    ParseIntIff(s);
    hide ParseInt, WholeInt, IsReserved;
  }
}
