/** Chat rollups printed as Influx line protocol, and read back. */
module LineProtocol {
  import opened Text
  import opened Decimal

  // ---------------------------------------------------------------- escaping

  function ReplaceAll(s: string, c: char, to: string): string {
    if s == "" then "" else (if s[0] == c then to else [s[0]]) + ReplaceAll(s[1..], c, to)
  }

  /** Four replacements one after the other, the backslash first. */
  function EscapeTag(value: string): string {
    ReplaceAll(ReplaceAll(ReplaceAll(ReplaceAll(value, '\\', "\\\\"), ' ', "\\ "), ',', "\\,"), '=', "\\=")
  }

  predicate IsSpecial(c: char) {
    c == '\\' || c == ' ' || c == ',' || c == '='
  }

  /** A backslash in front of every special character, in one pass. */
  function Escape(s: string): string {
    if s == "" then "" else (if IsSpecial(s[0]) then ['\\', s[0]] else [s[0]]) + Escape(s[1..])
  }

  lemma {:induction false} ReplaceAllAppend(a: string, b: string, c: char, to: string)
    ensures ReplaceAll(a + b, c, to) == ReplaceAll(a, c, to) + ReplaceAll(b, c, to)
  {
    if a == "" {
      assert a + b == b;
    } else {
      assert (a + b)[1..] == a[1..] + b;
      ReplaceAllAppend(a[1..], b, c, to);
    }
  }

  lemma EscapeTagAppend(a: string, b: string)
    ensures EscapeTag(a + b) == EscapeTag(a) + EscapeTag(b)
  {
    hide ReplaceAll;
    ReplaceAllAppend(a, b, '\\', "\\\\");
    var a1, b1 := ReplaceAll(a, '\\', "\\\\"), ReplaceAll(b, '\\', "\\\\");
    ReplaceAllAppend(a1, b1, ' ', "\\ ");
    var a2, b2 := ReplaceAll(a1, ' ', "\\ "), ReplaceAll(b1, ' ', "\\ ");
    ReplaceAllAppend(a2, b2, ',', "\\,");
    var a3, b3 := ReplaceAll(a2, ',', "\\,"), ReplaceAll(b2, ',', "\\,");
    ReplaceAllAppend(a3, b3, '=', "\\=");
  }

  lemma ReplaceInOne(x: char, c: char, to: string)
    ensures ReplaceAll([x], c, to) == if x == c then to else [x]
    ensures ReplaceAll("", c, to) == ""
  {
    assert [x][1..] == "";
  }

  lemma ReplaceInTwo(x: char, y: char, c: char, to: string)
    requires x != c && y != c
    ensures ReplaceAll([x, y], c, to) == [x, y]
  {
    assert [x, y] == [x] + [y];
    ReplaceAllAppend([x], [y], c, to);
    ReplaceInOne(x, c, to);
    ReplaceInOne(y, c, to);
  }

  lemma EscapeTagOne(x: char)
    ensures EscapeTag([x]) == if IsSpecial(x) then ['\\', x] else [x]
  {
    hide ReplaceAll;
    ReplaceInOne(x, '\\', "\\\\");
    ReplaceInOne(x, ' ', "\\ ");
    ReplaceInOne(x, ',', "\\,");
    ReplaceInOne(x, '=', "\\=");
    ReplaceInTwo('\\', '\\', ' ', "\\ ");
    ReplaceInTwo('\\', '\\', ',', "\\,");
    ReplaceInTwo('\\', '\\', '=', "\\=");
    ReplaceInTwo('\\', ' ', ',', "\\,");
    ReplaceInTwo('\\', ' ', '=', "\\=");
    ReplaceInTwo('\\', ',', '=', "\\=");
  }

  /** The four replacements amount to escaping each special character once. */
  lemma {:induction false} EscapeTagIsOnePass(s: string)
    ensures EscapeTag(s) == Escape(s)
  {
    if s == "" {
      ReplaceInOne('a', '\\', "\\\\");
      ReplaceInOne('a', ' ', "\\ ");
      ReplaceInOne('a', ',', "\\,");
      ReplaceInOne('a', '=', "\\=");
    } else {
      hide EscapeTag;
      assert s == [s[0]] + s[1..];
      EscapeTagAppend([s[0]], s[1..]);
      EscapeTagOne(s[0]);
      EscapeTagIsOnePass(s[1..]);
    }
  }

  // ---------------------------------------------------------------- points and their text

  datatype Pair = Pair(key: string, value: string)

  datatype IntField = IntField(key: string, value: int)

  datatype Point = Point(measurement: string, tags: seq<Pair>, fields: seq<IntField>, ts: int)

  function TagText(tag: Pair): string {
    "," + Escape(tag.key) + "=" + Escape(tag.value)
  }

  function TagsText(tags: seq<Pair>): string {
    if tags == [] then "" else TagText(tags[0]) + TagsText(tags[1..])
  }

  function FieldText(f: IntField): string {
    Escape(f.key) + "=" + Itoa(f.value) + "i"
  }

  function FieldsText(fields: seq<IntField>): string {
    if fields == [] then ""
    else if |fields| == 1 then FieldText(fields[0])
    else FieldText(fields[0]) + "," + FieldsText(fields[1..])
  }

  function Line(p: Point): string {
    Escape(p.measurement) + TagsText(p.tags) + " " + FieldsText(p.fields) + " " + Itoa(p.ts)
  }

  function Lines(ps: seq<Point>): string {
    if ps == [] then "" else Line(ps[0]) + "\n" + Lines(ps[1..])
  }

  // ---------------------------------------------------------------- reading the text back

  predicate IsStop(c: char) {
    c == ' ' || c == ',' || c == '='
  }

  /** An escaped token up to the next bare space, comma or equals sign, and the rest from there. */
  function Token(s: string): (r: (string, string))
    ensures |r.1| <= |s|
  {
    if s == "" || IsStop(s[0]) then ("", s)
    else if s[0] == '\\' && |s| > 1 then
      var r := Token(s[2..]);
      ([s[1]] + r.0, r.1)
    else
      var r := Token(s[1..]);
      ([s[0]] + r.0, r.1)
  }

  /** `,key=value` as long as there is a comma. */
  function ReadTags(s: string): Option<(seq<Pair>, string)>
    decreases |s|
  {
    if s == "" || s[0] != ',' then Some(([], s))
    else
      var key := Token(s[1..]);
      if key.1 == "" || key.1[0] != '=' then None
      else
        var value := Token(key.1[1..]);
        match ReadTags(value.1)
        case None => None
        case Some(r) => Some(([Pair(key.0, value.0)] + r.0, r.1))
  }

  /** `key=123i`, more after a comma. */
  function ReadFields(s: string): Option<(seq<IntField>, string)>
    decreases |s|
  {
    var key := Token(s);
    if key.1 == "" || key.1[0] != '=' then None
    else
      var value := Token(key.1[1..]);
      if value.0 == "" || value.0[|value.0| - 1] != 'i' || Atoi(value.0[..|value.0| - 1]).None? then None
      else
        var f := IntField(key.0, Atoi(value.0[..|value.0| - 1]).value);
        if value.1 == "" || value.1[0] != ',' then Some(([f], value.1))
        else match ReadFields(value.1[1..])
          case None => None
          case Some(r) => Some(([f] + r.0, r.1))
  }

  function ReadLine(s: string): Option<Point> {
    var m := Token(s);
    match ReadTags(m.1)
    case None => None
    case Some(tags) =>
      if tags.1 == "" || tags.1[0] != ' ' then None
      else match ReadFields(tags.1[1..])
        case None => None
        case Some(fields) =>
          if fields.1 == "" || fields.1[0] != ' ' || Atoi(fields.1[1..]).None? then None
          else Some(Point(m.0, tags.0, fields.0, Atoi(fields.1[1..]).value))
  }

  /** One point per line; every line ends in a newline. */
  function ReadLines(s: string): Option<seq<Point>>
    decreases |s|
  {
    if s == "" then Some([])
    else
      var n := IndexOf(s, '\n');
      if n == |s| then None
      else match (ReadLine(s[..n]), ReadLines(s[n + 1..]))
        case (Some(p), Some(ps)) => Some([p] + ps)
        case _ => None
  }

  predicate Stops(rest: string) {
    rest == "" || IsStop(rest[0])
  }

  lemma {:induction false} TokenReadsBack(v: string, rest: string)
    requires Stops(rest)
    ensures Token(Escape(v) + rest) == (v, rest)
  {
    var s := Escape(v) + rest;
    if v == "" {
      assert s == rest;
    } else {
      TokenReadsBack(v[1..], rest);
      var tail := Escape(v[1..]) + rest;
      assert [v[0]] + v[1..] == v;
      if IsSpecial(v[0]) {
        assert s[0] == '\\' && s[1] == v[0] && s[2..] == tail;
      } else {
        assert s[0] == v[0] && s[1..] == tail;
      }
    }
  }

  /** `key=value` in front of `tail`, without the comma. */
  lemma PairReadsBack(key: string, value: string, tail: string)
    requires Stops(tail)
    ensures
      var k := Token(Escape(key) + "=" + Escape(value) + tail);
      k.0 == key && k.1 != "" && k.1[0] == '=' && Token(k.1[1..]) == (value, tail)
  {
    hide Token, Escape;
    AroundEquals(Escape(key), Escape(value), tail);
    TokenReadsBack(key, "=" + Escape(value) + tail);
    TokenReadsBack(value, tail);
  }

  lemma AroundEquals(k: string, v: string, tail: string)
    ensures k + "=" + v + tail == k + ("=" + v + tail)
    ensures ("=" + v + tail)[1..] == v + tail
  {
  }

  lemma {:induction false} TagsReadBack(tags: seq<Pair>, rest: string)
    requires rest != "" && rest[0] == ' '
    ensures ReadTags(TagsText(tags) + rest) == Some((tags, rest))
    ensures Stops(TagsText(tags) + rest)
  {
    hide Token, Escape;
    if tags == [] {
      assert "" + rest == rest;
    } else {
      var t, tail := tags[0], TagsText(tags[1..]) + rest;
      TagsReadBack(tags[1..], rest);
      PairReadsBack(t.key, t.value, tail);
      TagsTextTail(tags, rest);
      ReadTagsStep(TagsText(tags) + rest, t.key, t.value, tail);
      assert [Pair(t.key, t.value)] + tags[1..] == tags;
    }
  }

  lemma AfterComma(k: string, v: string, tail: string, rest: string)
    ensures ("," + k + "=" + v + tail + rest)[1..] == k + "=" + v + (tail + rest)
  {
    assert "," + k + "=" + v + tail + rest == "," + (k + "=" + v + (tail + rest));
  }

  lemma TagsTextTail(tags: seq<Pair>, rest: string)
    requires tags != []
    ensures
      var s := TagsText(tags) + rest;
      s != "" && s[0] == ','
      && s[1..] == Escape(tags[0].key) + "=" + Escape(tags[0].value) + (TagsText(tags[1..]) + rest)
  {
    hide Escape;
    AfterComma(Escape(tags[0].key), Escape(tags[0].value), TagsText(tags[1..]), rest);
  }

  lemma ReadTagsStep(s: string, key: string, value: string, tail: string)
    requires s != "" && s[0] == ','
    requires
      var k := Token(s[1..]);
      k.0 == key && k.1 != "" && k.1[0] == '=' && Token(k.1[1..]) == (value, tail)
    ensures ReadTags(s) == match ReadTags(tail) case None => None case Some(r) => Some(([Pair(key, value)] + r.0, r.1))
  {
    hide Token;
  }

  lemma {:induction false} PlainIsEscaped(s: string)
    requires forall i :: 0 <= i < |s| ==> !IsSpecial(s[i])
    ensures Escape(s) == s
  {
    if s != "" {
      PlainIsEscaped(s[1..]);
    }
  }

  lemma IntFieldText(n: int)
    ensures Escape(Itoa(n) + "i") == Itoa(n) + "i"
  {
    hide Itoa;
    var s := Itoa(n) + "i";
    assert forall i :: 0 <= i < |s| ==> s[i] == if i < |Itoa(n)| then Itoa(n)[i] else 'i';
    PlainIsEscaped(s);
  }

  lemma FieldReadsBack(f: IntField, tail: string)
    requires Stops(tail) && IsInt64(f.value)
    ensures
      var k := Token(FieldText(f) + tail);
      k.0 == f.key && k.1 != "" && k.1[0] == '=' &&
      var v := Token(k.1[1..]);
      && v.1 == tail && v.0 != "" && v.0[|v.0| - 1] == 'i' && Atoi(v.0[..|v.0| - 1]) == Some(f.value)
  {
    hide Token, Escape, Itoa, Atoi;
    var value := Itoa(f.value) + "i";
    IntFieldText(f.value);
    PairReadsBack(f.key, value, tail);
    assert FieldText(f) + tail == Escape(f.key) + "=" + value + tail;
    assert value[..|value| - 1] == Itoa(f.value);
    AtoiOfItoa(f.value);
  }

  lemma {:induction false} FieldsReadBack(fields: seq<IntField>, rest: string)
    requires fields != [] && rest != "" && rest[0] == ' '
    requires forall i :: 0 <= i < |fields| ==> IsInt64(fields[i].value)
    ensures ReadFields(FieldsText(fields) + rest) == Some((fields, rest))
  {
    hide Token, FieldText, Atoi;
    var f := fields[0];
    assert [IntField(f.key, f.value)] + fields[1..] == fields;
    if |fields| == 1 {
      assert fields == [f];
      FieldReadsBack(f, rest);
    } else {
      var more := FieldsText(fields[1..]) + rest;
      FieldReadsBack(f, "," + more);
      assert FieldsText(fields) + rest == FieldText(f) + ("," + more);
      assert ("," + more)[1..] == more;
      FieldsReadBack(fields[1..], rest);
    }
  }

  ghost predicate Printable(p: Point) {
    && p.fields != [] && IsInt64(p.ts)
    && forall i :: 0 <= i < |p.fields| ==> IsInt64(p.fields[i].value)
  }

  lemma LineReadsBack(p: Point)
    requires Printable(p)
    ensures ReadLine(Line(p)) == Some(p)
  {
    hide Token, ReadTags, ReadFields, Escape, Itoa, Atoi, TagsText, FieldsText;
    var afterFields := " " + Itoa(p.ts);
    var afterTags := " " + FieldsText(p.fields) + afterFields;
    var afterName := TagsText(p.tags) + afterTags;
    assert Line(p) == Escape(p.measurement) + afterName;
    TagsReadBack(p.tags, afterTags);
    TokenReadsBack(p.measurement, afterName);
    assert afterTags[1..] == FieldsText(p.fields) + afterFields;
    FieldsReadBack(p.fields, afterFields);
    assert afterFields[1..] == Itoa(p.ts);
    AtoiOfItoa(p.ts);
  }

  // ---------------------------------------------------------------- newlines

  predicate OneLine(s: string) {
    '\n' !in s
  }

  ghost predicate OneLinePoint(p: Point) {
    && OneLine(p.measurement)
    && (forall i :: 0 <= i < |p.tags| ==> OneLine(p.tags[i].key) && OneLine(p.tags[i].value))
    && (forall i :: 0 <= i < |p.fields| ==> OneLine(p.fields[i].key))
  }

  lemma {:induction false} EscapeKeepsLines(s: string)
    ensures OneLine(Escape(s)) <==> OneLine(s)
  {
    if s != "" {
      EscapeKeepsLines(s[1..]);
      assert s == [s[0]] + s[1..];
    }
  }

  lemma {:induction false} TagsKeepLines(tags: seq<Pair>)
    requires forall i :: 0 <= i < |tags| ==> OneLine(tags[i].key) && OneLine(tags[i].value)
    ensures OneLine(TagsText(tags))
  {
    hide Escape;
    if tags != [] {
      EscapeKeepsLines(tags[0].key);
      EscapeKeepsLines(tags[0].value);
      TagsKeepLines(tags[1..]);
    }
  }

  lemma {:induction false} FieldsKeepLines(fields: seq<IntField>)
    requires forall i :: 0 <= i < |fields| ==> OneLine(fields[i].key)
    ensures OneLine(FieldsText(fields))
  {
    hide Escape, Itoa;
    if fields != [] {
      EscapeKeepsLines(fields[0].key);
      FieldsKeepLines(fields[1..]);
    }
  }

  lemma PointIsOneLine(p: Point)
    requires OneLinePoint(p)
    ensures OneLine(Line(p))
  {
    hide Escape, Itoa, TagsText, FieldsText;
    EscapeKeepsLines(p.measurement);
    TagsKeepLines(p.tags);
    FieldsKeepLines(p.fields);
  }

  lemma {:induction false} LinesReadBack(ps: seq<Point>)
    requires forall i :: 0 <= i < |ps| ==> Printable(ps[i]) && OneLinePoint(ps[i])
    ensures ReadLines(Lines(ps)) == Some(ps)
  {
    hide Line, ReadLine, Printable, OneLinePoint, OneLine;
    if ps != [] {
      var s, l, rest := Lines(ps), Line(ps[0]), Lines(ps[1..]);
      PointIsOneLine(ps[0]);
      NewlineEndsLine(l, rest);
      assert s == l + ['\n'] + rest;
      assert s[..|l|] == l && s[|l| + 1..] == rest;
      LineReadsBack(ps[0]);
      LinesReadBack(ps[1..]);
      assert [ps[0]] + ps[1..] == ps;
    }
  }

  lemma NewlineEndsLine(l: string, rest: string)
    requires OneLine(l)
    ensures IndexOf(l + ['\n'] + rest, '\n') == |l|
  {
    IndexOfIs(l, '\n', rest);
  }

  lemma {:induction false} TokenIsOneLine(s: string)
    requires OneLine(s)
    ensures OneLine(Token(s).0) && OneLine(Token(s).1)
  {
    if s == "" || IsStop(s[0]) {
    } else if s[0] == '\\' && |s| > 1 {
      TokenIsOneLine(s[2..]);
    } else {
      TokenIsOneLine(s[1..]);
    }
  }

  lemma {:induction false} TagsAreOneLine(s: string)
    requires OneLine(s) && ReadTags(s).Some?
    ensures OneLine(ReadTags(s).value.1)
    ensures forall i :: 0 <= i < |ReadTags(s).value.0| ==> OneLine(ReadTags(s).value.0[i].key) && OneLine(ReadTags(s).value.0[i].value)
    decreases |s|
  {
    hide Token;
    if s != "" && s[0] == ',' {
      TokenIsOneLine(s[1..]);
      var key := Token(s[1..]);
      TokenIsOneLine(key.1[1..]);
      TagsAreOneLine(Token(key.1[1..]).1);
    }
  }

  lemma {:induction false} FieldsAreOneLine(s: string)
    requires OneLine(s) && ReadFields(s).Some?
    ensures OneLine(ReadFields(s).value.1)
    ensures forall i :: 0 <= i < |ReadFields(s).value.0| ==> OneLine(ReadFields(s).value.0[i].key)
    decreases |s|
  {
    hide Token, Atoi;
    TokenIsOneLine(s);
    var key := Token(s);
    TokenIsOneLine(key.1[1..]);
    var value := Token(key.1[1..]);
    if value.1 != "" && value.1[0] == ',' {
      FieldsAreOneLine(value.1[1..]);
    }
  }

  lemma ReadLineIsOneLine(s: string)
    requires OneLine(s) && ReadLine(s).Some?
    ensures OneLinePoint(ReadLine(s).value)
  {
    hide Token, ReadTags, ReadFields, Atoi;
    TokenIsOneLine(s);
    TagsAreOneLine(Token(s).1);
    FieldsAreOneLine(ReadTags(Token(s).1).value.1[1..]);
  }

  lemma {:induction false} ReadLinesAreOneLine(s: string)
    requires ReadLines(s).Some?
    ensures forall i :: 0 <= i < |ReadLines(s).value| ==> OneLinePoint(ReadLines(s).value[i])
    decreases |s|
  {
    hide ReadLine, OneLinePoint, IndexOf;
    if s != "" {
      var n := IndexOf(s, '\n');
      ReadLineIsOneLine(s[..n]);
      ReadLinesAreOneLine(s[n + 1..]);
    }
  }

  /** The printed points are read back if and only if no name or value holds a newline. */
  lemma PrintedPointsReadBack(ps: seq<Point>)
    requires forall i :: 0 <= i < |ps| ==> Printable(ps[i])
    ensures ReadLines(Lines(ps)) == Some(ps) <==> forall i :: 0 <= i < |ps| ==> OneLinePoint(ps[i])
  {
    hide ReadLines, Lines, Printable, OneLinePoint;
    if forall i :: 0 <= i < |ps| ==> OneLinePoint(ps[i]) {
      LinesReadBack(ps);
    }
    if ReadLines(Lines(ps)) == Some(ps) {
      ReadLinesAreOneLine(Lines(ps));
    }
  }
}
