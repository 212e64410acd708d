/**
 * The header pass of `read_las`: find the first line holding the data-section
 * marker `~A`, and from every line before it pick up the thirteen well attributes
 * into a dictionary; then take the curve mnemonics from the marker line.
 */
module LasReader {
  import opened Wrappers
  import opened PyStr
  import opened PyFloat

  /** The well attributes the reader looks for. */
  datatype Attr = Start | Stop | Step | Null | Date | Name | Field | Long | Lati | XCoord | YCoord | KB | GL

  /** The attributes in the order the reader tries them on each line. */
  const WellAttributes: seq<Attr> :=
    [Start, Stop, Step, Null, Date, Name, Field, Long, Lati, XCoord, YCoord, KB, GL]

  /** The keyword that must appear as a whole token of the upper-cased line. */
  function Keyword(a: Attr): string {
    match a
    case Start => "START"
    case Stop => "STOP"
    case Step => "STEP"
    case Null => "NULL"
    case Date => "DATE"
    case Name => "NAME"
    case Field => "FIELD"
    case Long => "LONG"
    case Lati => "LATI"
    case XCoord => "XCOORD"
    case YCoord => "YCOORD"
    case KB => "KB"
    case GL => "GL"
  }

  /** DATE, NAME and FIELD keep their text; the other ten attributes are numbers. */
  predicate IsNumeric(a: Attr) {
    a != Date && a != Name && a != Field
  }

  /**
   * A value an attribute can hold: a float, a string, or the `datetime` a well
   * starts with as its DATE (the reader itself only ever produces the first two).
   */
  datatype Value = Number(n: Num) | Text(s: string) | Timestamp(year: int, month: int, day: int)

  type Header = map<Attr, Value>

  function Get(h: Header, a: Attr): Option<Value> {
    if a in h then Some(h[a]) else None
  }

  /** Numeric attributes hold numbers and the other ones hold text. */
  predicate WellTyped(h: Header) {
    forall a :: a in h ==> (IsNumeric(a) <==> h[a].Number?)
  }

  const DataMarker: string := "~A"

  predicate IsDataLine(line: string) {
    Contains(line, DataMarker)
  }

  /**
   * The raw attribute text: the stripped slice from just after the first '.' up to the
   * first ':'. An absent character has index -1, so a line without '.' is sliced from 0
   * and a line without ':' loses its last character.
   */
  function RawValue(line: string): (r: string)
    ensures |line| > 0 ==> |r| < |line|
    ensures line == [] ==> r == []
    ensures r == [] || (!IsSpace(r[0]) && !IsSpace(r[|r| - 1]))
  {
    var s := Slice(line, Find(line, '.') + 1, Find(line, ':'));
    StripEnds(s);
    Strip(s)
  }

  /**
   * The number stored for a numeric attribute: the whole text, else its last token, else
   * NaN; nothing exactly when the text has no token.
   */
  function NumericValue(raw: string): (r: Option<Num>)
    ensures r.None? <==> Tokens(raw) == []
  {
    match ParseFloat(raw)
    case Some(v) =>
      ParsedIsOneToken(raw);
      Some(Finite(v))
    case None =>
      var ts := Tokens(raw);
      if |ts| > 0 then
        match ParseFloat(ts[|ts| - 1])
        case Some(v) => Some(Finite(v))
        case None => Some(NaN)
      else None
  }

  /** What one header line stores under `a`, or None when it stores nothing there. */
  function LineValue(line: string, a: Attr): (r: Option<Value>)
    ensures r.Some? ==> Keyword(a) in Tokens(Upper(line))
    ensures r.Some? ==> (IsNumeric(a) <==> r.value.Number?)
  {
    if Keyword(a) in Tokens(Upper(line)) then
      var raw := RawValue(line);
      if IsNumeric(a) then
        match NumericValue(raw)
        case Some(n) => Some(Number(n))
        case None => None
      else
        Some(Text(raw))
    else
      None
  }

  /** The dictionary after trying the attributes `attrs` in order, storing `values(a)` where there is one. */
  function Assign(h: Header, values: Attr -> Option<Value>, attrs: seq<Attr>): Header {
    if attrs == [] then h
    else
      var h' := Assign(h, values, attrs[..|attrs| - 1]);
      var a := attrs[|attrs| - 1];
      match values(a)
      case Some(v) => h'[a := v]
      case None => h'
  }

  /** The dictionary after trying every attribute on one line. */
  function ApplyLine(h: Header, line: string): Header {
    Assign(h, a => LineValue(line, a), WellAttributes)
  }

  /** The dictionary after processing `lines` in order. */
  function Scan(h: Header, lines: seq<string>): Header {
    if lines == [] then h
    else ApplyLine(Scan(h, lines[..|lines| - 1]), lines[|lines| - 1])
  }

  /** The index of the first line containing the data marker. */
  function FirstDataLine(lines: seq<string>): (r: Option<nat>)
    ensures r.Some? ==> r.value < |lines| && IsDataLine(lines[r.value])
    ensures r.Some? ==> forall j :: 0 <= j < r.value ==> !IsDataLine(lines[j])
    ensures r.None? ==> forall j :: 0 <= j < |lines| ==> !IsDataLine(lines[j])
  {
    if lines == [] then None
    else if IsDataLine(lines[0]) then Some(0)
    else
      match FirstDataLine(lines[1..])
      case None => None
      case Some(i) => Some(i + 1)
  }

  /** `start_log_idx`: the first marker line, or 0 when no line holds the marker. */
  function StartLogIndex(lines: seq<string>): (k: nat)
    ensures |lines| > 0 ==> k < |lines|
    ensures (exists j :: 0 <= j < |lines| && IsDataLine(lines[j])) ==>
      k < |lines| && IsDataLine(lines[k]) && forall j :: 0 <= j < k ==> !IsDataLine(lines[j])
    ensures (forall j :: 0 <= j < |lines| ==> !IsDataLine(lines[j])) ==> k == 0
  {
    match FirstDataLine(lines)
    case Some(i) => i
    case None => 0
  }

  /** How many leading lines are scanned for attributes. */
  function HeaderEnd(lines: seq<string>): nat {
    match FirstDataLine(lines)
    case Some(i) => i
    case None => |lines|
  }

  /** The well dictionary `read_las` builds. */
  function HeaderOf(lines: seq<string>): (h: Header)
    ensures WellTyped(h)
  {
    ScanTyped(map[], lines[..HeaderEnd(lines)]);
    Scan(map[], lines[..HeaderEnd(lines)])
  }

  lemma {:induction false} AssignTyped(h: Header, values: Attr -> Option<Value>, attrs: seq<Attr>)
    requires WellTyped(h)
    requires forall a :: values(a).Some? ==> (IsNumeric(a) <==> values(a).value.Number?)
    ensures WellTyped(Assign(h, values, attrs))
  {
    if attrs != [] {
      AssignTyped(h, values, attrs[..|attrs| - 1]);
    }
  }

  lemma {:induction false} ScanTyped(h: Header, lines: seq<string>)
    requires WellTyped(h)
    ensures WellTyped(Scan(h, lines))
  {
    if lines != [] {
      ScanTyped(h, lines[..|lines| - 1]);
      AssignTyped(Scan(h, lines[..|lines| - 1]), a => LineValue(lines[|lines| - 1], a), WellAttributes);
    }
  }

  /** `split()[1:]` on the data-section line: its tokens without the leading `~A`. */
  function LogNames(line: string): (names: seq<string>)
    ensures |Tokens(line)| == 0 ==> names == []
    ensures |Tokens(line)| > 0 ==> Tokens(line) == [Tokens(line)[0]] + names
    ensures |Tokens(line)| > 0 ==> |names| == |Tokens(line)| - 1
    ensures forall k :: 0 <= k < |names| ==> |names[k]| > 0 && NoSpace(names[k])
  {
    var ts := Tokens(line);
    TokensAreWords(line);
    if |ts| == 0 then [] else ts[1..]
  }

  /** What goes wrong in `read_las`. */
  datatype ReadError =
    | EmptyFile                                   // `readlines()[0]` of an empty file: IndexError
    | ColumnMismatch(names: nat, columns: nat)    // `logs_df.columns = log_names`: ValueError

  /** What `read_las` returns: the well dictionary, and the curve names of the log table. */
  datatype Las = Las(wellDict: Header, logNames: seq<string>)

  /**
   * `read_las` on the lines of a file whose data section `pd.read_csv` reads as a
   * table of `columns` columns.
   */
  method ReadLas(lines: seq<string>, columns: nat) returns (r: Result<Las, ReadError>)
    ensures |lines| == 0 ==> r == Failure(EmptyFile)
    ensures |lines| > 0 ==> StartLogIndex(lines) < |lines|
    ensures |lines| > 0 ==>
      var names := LogNames(lines[StartLogIndex(lines)]);
      r == if |names| == columns then Success(Las(HeaderOf(lines), names))
           else Failure(ColumnMismatch(|names|, columns))
  {
    var wellDict, startLogIdx := ScanHeader(lines);
    if startLogIdx >= |lines| {
      return Failure(EmptyFile);
    }
    var logNames := LogNames(lines[startLogIdx]);
    if |logNames| != columns {
      return Failure(ColumnMismatch(|logNames|, columns));
    }
    return Success(Las(wellDict, logNames));
  }

  /**
   * The outer loop of `read_las`: read attributes from each line until the first line
   * holding the marker, whose index is `start_log_idx` (0 when there is none).
   */
  method ScanHeader(lines: seq<string>) returns (wellDict: Header, startLogIdx: nat)
    ensures wellDict == HeaderOf(lines)
    ensures startLogIdx == StartLogIndex(lines)
    ensures |lines| > 0 ==> startLogIdx < |lines|
  {
    wellDict := map[];
    startLogIdx := 0;
    for num := 0 to |lines|
      invariant wellDict == Scan(map[], lines[..num])
      invariant forall j :: 0 <= j < num ==> !IsDataLine(lines[j])
      invariant startLogIdx == 0
    {
      var line := lines[num];
      if IsDataLine(line) {
        startLogIdx := num;
        FirstDataLineUnique(lines, num);
        return;
      }
      wellDict := ReadAttributes(wellDict, line);
      ScanStep(lines, num, wellDict);
    }
    NoDataLine(lines);
  }

  /** The inner loop of `read_las`: try every attribute keyword on one header line. */
  method ReadAttributes(wellDict: Header, line: string) returns (d: Header)
    ensures d == ApplyLine(wellDict, line)
  {
    d := wellDict;
    var words := Tokens(Upper(line));
    for k := 0 to |WellAttributes|
      invariant d == Assign(wellDict, a => LineValue(line, a), WellAttributes[..k])
    {
      d := ReadAttribute(d, line, words, WellAttributes[k]);
      AssignStep(wellDict, a => LineValue(line, a), WellAttributes, k);
    }
    assert WellAttributes[..|WellAttributes|] == WellAttributes;
  }

  /** One pass of the inner loop: store `attribute` when its keyword is a word of the line. */
  method ReadAttribute(d: Header, line: string, words: seq<string>, attribute: Attr) returns (d': Header)
    requires words == Tokens(Upper(line))
    ensures d' == match LineValue(line, attribute) case Some(v) => d[attribute := v] case None => d
  {
    LineValueCases(line, attribute);
    d' := d;
    if Keyword(attribute) in words {
      var attributeValue := RawValue(line);
      if IsNumeric(attribute) {
        var n := NumericValue(attributeValue);
        if n.Some? {
          d' := d[attribute := Number(n.value)];
        }
      } else {
        d' := d[attribute := Text(attributeValue)];
      }
    }
  }

  lemma LineValueCases(line: string, a: Attr)
    ensures Keyword(a) !in Tokens(Upper(line)) ==> LineValue(line, a) == None
    ensures Keyword(a) in Tokens(Upper(line)) && !IsNumeric(a) ==> LineValue(line, a) == Some(Text(RawValue(line)))
    ensures Keyword(a) in Tokens(Upper(line)) && IsNumeric(a) ==>
      LineValue(line, a) == match NumericValue(RawValue(line)) case Some(n) => Some(Number(n)) case None => None
  {
  }

  /** One header line more: the loop invariant of `ScanHeader` carries over. */
  lemma ScanStep(lines: seq<string>, num: nat, d: Header)
    requires num < |lines| && !IsDataLine(lines[num])
    requires forall j :: 0 <= j < num ==> !IsDataLine(lines[j])
    requires d == ApplyLine(Scan(map[], lines[..num]), lines[num])
    ensures forall j :: 0 <= j < num + 1 ==> !IsDataLine(lines[j])
    ensures d == Scan(map[], lines[..num + 1])
  {
    assert lines[..num + 1][..num] == lines[..num];
  }

  lemma AssignStep(h: Header, values: Attr -> Option<Value>, attrs: seq<Attr>, k: nat)
    requires k < |attrs|
    ensures Assign(h, values, attrs[..k + 1])
         == match values(attrs[k]) case Some(v) => Assign(h, values, attrs[..k])[attrs[k] := v]
                                   case None => Assign(h, values, attrs[..k])
  {
    assert attrs[..k + 1][..k] == attrs[..k];
  }

  /** With no marker line the whole file is scanned and the index stays 0. */
  lemma NoDataLine(lines: seq<string>)
    requires forall j :: 0 <= j < |lines| ==> !IsDataLine(lines[j])
    ensures StartLogIndex(lines) == 0 && HeaderEnd(lines) == |lines|
    ensures HeaderOf(lines) == Scan(map[], lines)
  {
    assert FirstDataLine(lines) == None;
    assert lines[..|lines|] == lines;
  }

  lemma FirstDataLineUnique(lines: seq<string>, i: nat)
    requires i < |lines| && IsDataLine(lines[i])
    requires forall j :: 0 <= j < i ==> !IsDataLine(lines[j])
    ensures FirstDataLine(lines) == Some(i)
  {
  }
}
