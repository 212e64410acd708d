/**
 * What the header pass of `read_las` guarantees: which line an attribute comes
 * from, that nothing after the data-section marker matters, that numeric
 * attributes hold numbers, and how the raw value and its fallback behave.
 */
module LasProperties {
  import opened Wrappers
  import opened PyStr
  import opened PyFloat
  import opened LasReader

  /** Trying a list of attributes changes `a` only if `a` is listed and has a value, which it then holds. */
  lemma {:induction false} AssignAt(h: Header, values: Attr -> Option<Value>, attrs: seq<Attr>, a: Attr)
    ensures Get(Assign(h, values, attrs), a)
         == if a in attrs && values(a).Some? then values(a) else Get(h, a)
  {
    if attrs != [] {
      var init := attrs[..|attrs| - 1];
      AssignAt(h, values, init, a);
      assert attrs == init + [attrs[|attrs| - 1]];
      assert a in attrs <==> a in init || a == attrs[|attrs| - 1];
    }
  }

  /** One header line leaves `a` alone unless it stores a value for `a`, which then replaces the old one. */
  lemma ApplyLineAt(h: Header, line: string, a: Attr)
    ensures Get(ApplyLine(h, line), a)
         == if LineValue(line, a).Some? then LineValue(line, a) else Get(h, a)
  {
    AssignAt(h, a => LineValue(line, a), WellAttributes, a);
    EveryAttributeTried(a);
  }

  /** The reader tries every attribute on every header line. */
  lemma EveryAttributeTried(a: Attr)
    ensures a in WellAttributes
  {
  }

  /** What each line stores for `a`, line by line. */
  function Column(lines: seq<string>, a: Attr): (c: seq<Option<Value>>)
    ensures |c| == |lines|
  {
    if lines == [] then []
    else Column(lines[..|lines| - 1], a) + [LineValue(lines[|lines| - 1], a)]
  }

  lemma {:induction false} ColumnAt(lines: seq<string>, a: Attr, i: nat)
    requires i < |lines|
    ensures Column(lines, a)[i] == LineValue(lines[i], a)
  {
    if i < |lines| - 1 {
      ColumnAt(lines[..|lines| - 1], a, i);
    }
  }

  /** The index of the last entry that holds a value. */
  function LastSome<T>(vs: seq<Option<T>>): (r: Option<nat>)
    ensures r.Some? ==> r.value < |vs| && vs[r.value].Some?
    ensures r.Some? ==> forall j :: r.value < j < |vs| ==> vs[j].None?
    ensures r.None? ==> forall j :: 0 <= j < |vs| ==> vs[j].None?
  {
    if vs == [] then None
    else if vs[|vs| - 1].Some? then Some(|vs| - 1)
    else
      var r := LastSome(vs[..|vs| - 1]);
      assert forall j :: 0 <= j < |vs| - 1 ==> vs[..|vs| - 1][j] == vs[j];
      r
  }

  /** The last line that stores an attribute wins; an attribute no line stores keeps its old entry. */
  lemma {:induction false} ScanLastWins(h: Header, lines: seq<string>, a: Attr)
    ensures Get(Scan(h, lines), a)
         == match LastSome(Column(lines, a))
            case Some(i) => Column(lines, a)[i]
            case None => Get(h, a)
  {
    if lines != [] {
      var init := lines[..|lines| - 1];
      ScanLastWins(h, init, a);
      ApplyLineAt(Scan(h, init), lines[|lines| - 1], a);
      assert Column(lines, a)[..|lines| - 1] == Column(init, a);
    }
  }

  /**
   * In the dictionary `read_las` returns, an attribute is present exactly when some line
   * before the marker stores it, and its value is the one stored by the last such line.
   */
  lemma HeaderValue(lines: seq<string>, a: Attr)
    ensures var c := Column(lines[..HeaderEnd(lines)], a);
      && (a in HeaderOf(lines) <==> exists i :: 0 <= i < |c| && c[i].Some?)
      && (a in HeaderOf(lines) ==> Some(HeaderOf(lines)[a]) == c[LastSome(c).value])
  {
    ScanLastWins(map[], lines[..HeaderEnd(lines)], a);
  }

  lemma FirstDataLineOfPrefix(lines: seq<string>, more: seq<string>)
    requires FirstDataLine(lines).Some?
    ensures var i := FirstDataLine(lines).value;
      FirstDataLine(lines[..i + 1] + more) == Some(i)
  {
    var i := FirstDataLine(lines).value;
    var ls := lines[..i + 1] + more;
    assert forall j :: 0 <= j <= i ==> ls[j] == lines[j];
    FirstDataLineUnique(ls, i);
  }

  /** Whatever follows the marker line, the dictionary and the data-section index stay the same. */
  lemma LinesAfterMarkerIgnored(lines: seq<string>, more: seq<string>)
    requires FirstDataLine(lines).Some?
    ensures var ls := lines[..FirstDataLine(lines).value + 1] + more;
      && HeaderOf(ls) == HeaderOf(lines)
      && StartLogIndex(ls) == StartLogIndex(lines)
      && ls[StartLogIndex(ls)] == lines[StartLogIndex(lines)]
  {
    var i := FirstDataLine(lines).value;
    var ls := lines[..i + 1] + more;
    FirstDataLineOfPrefix(lines, more);
    assert ls[..i] == lines[..i];
  }

  /** The ten numeric attributes always hold floats, DATE, NAME and FIELD always hold text. */
  lemma HeaderWellTyped(lines: seq<string>)
    ensures WellTyped(HeaderOf(lines))
    ensures forall a :: a in HeaderOf(lines) && !IsNumeric(a) ==> HeaderOf(lines)[a].Text?
  {
    var h := HeaderOf(lines);
    forall a | a in h && !IsNumeric(a)
      ensures h[a].Text?
    {
      HeaderTextOnly(lines[..HeaderEnd(lines)], a);
    }
  }

  lemma HeaderTextOnly(hs: seq<string>, a: Attr)
    requires a in Scan(map[], hs)
    ensures !Scan(map[], hs)[a].Timestamp?
  {
    ScanLastWins(map[], hs, a);
    var i := LastSome(Column(hs, a)).value;
    ColumnAt(hs, a, i);
  }

  /**
   * Trying the whole raw value first changes nothing: a numeric attribute gets the
   * float of the last token, NaN when that does not parse, and nothing when the raw
   * value is blank.
   */
  lemma NumericFallback(raw: string)
    ensures var ts := Tokens(raw);
      NumericValue(raw)
        == if ts == [] then None
           else match ParseFloat(ts[|ts| - 1])
                case Some(v) => Some(Finite(v))
                case None => Some(NaN)
    ensures NumericValue(raw).None? <==> AllSpace(raw)
  {
    TokensEmptyIff(raw);
    if ParseFloat(raw).Some? {
      ParsedIsOneToken(raw);
      StripParts(raw);
      StripOfStripped(Strip(raw));
    }
  }

  /**
   * A numeric attribute named on a line gets the float of the last word of the raw value,
   * NaN when that word is not a float, and nothing when the raw value has no word.
   */
  lemma NumericLineValue(line: string, a: Attr)
    requires IsNumeric(a)
    ensures var ts := Tokens(RawValue(line));
      LineValue(line, a)
        == if Keyword(a) !in Tokens(Upper(line)) || ts == [] then None
           else match ParseFloat(ts[|ts| - 1])
                case Some(v) => Some(Number(Finite(v)))
                case None => Some(Number(NaN))
  {
    NumericFallback(RawValue(line));
  }

  /** DATE, NAME and FIELD named on a line get its raw value as text. */
  lemma TextLineValue(line: string, a: Attr)
    requires !IsNumeric(a)
    ensures LineValue(line, a)
         == if Keyword(a) in Tokens(Upper(line)) then Some(Text(RawValue(line))) else None
  {
  }

  /** The position of the first `c` in `s`, or -1, stated without `Find`. */
  ghost predicate FirstAt(s: string, c: char, i: int) {
    if c in s then 0 <= i < |s| && s[i] == c && c !in s[..i] else i == -1
  }

  /**
   * The raw value is the stripped text strictly between the first '.' (or the start of
   * the line) and the first ':' (or, with no ':', the last character of the line, which
   * is dropped); it is empty when the ':' does not come after the '.'.
   */
  lemma RawValueBetween(line: string, dot: int, colon: int)
    requires FirstAt(line, '.', dot) && FirstAt(line, ':', colon)
    ensures var lo, hi := dot + 1, if colon >= 0 then colon else if |line| > 0 then |line| - 1 else 0;
      && 0 <= lo <= |line| && 0 <= hi <= |line|
      && RawValue(line) == if lo < hi then Strip(line[lo..hi]) else []
  {
    FindIsFirst(line, '.', dot);
    FindIsFirst(line, ':', colon);
  }

  /** The raw value is the stripped text `v` found between the first '.' and the end of the slice. */
  lemma RawValueIs(line: string, dot: int, colon: int, v: string)
    requires FirstAt(line, '.', dot) && FirstAt(line, ':', colon)
    requires var hi := if colon >= 0 then colon else |line| - 1;
      0 <= dot + 1 <= hi <= |line| && line[dot + 1..hi] == v
    ensures RawValue(line) == Strip(v)
  {
    RawValueBetween(line, dot, colon);
    if v == [] {
      StripOfStripped(v);
    }
  }

  lemma FindIsFirst(s: string, c: char, i: int)
    requires FirstAt(s, c, i)
    ensures Find(s, c) == i
  {
    FindFirst(s, c);
  }
}
