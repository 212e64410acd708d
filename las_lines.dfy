/**
 * Header lines of the usual LAS shape `MNEM.UNIT VALUE : DESCRIPTION`, and the
 * data-section line `~A NAME NAME ...`, worked through the reader for all contents.
 */
module LasLines {
  import opened Wrappers
  import opened PyStr
  import opened PyFloat
  import opened LasReader
  import opened LasProperties

  lemma FirstAtConcat(x: string, c: char, y: string)
    requires c !in x
    ensures FirstAt(x + [c] + y, c, |x|)
  {
    var s := x + [c] + y;
    assert s[..|x|] == x;
  }

  /** Where the first '.' and the first ':' of a standard line are, and what lies between. */
  lemma StandardShape(mnem: string, rest: string, desc: string)
    requires '.' !in mnem && ':' !in mnem && ':' !in rest
    ensures var line, colon := mnem + "." + rest + ":" + desc, |mnem| + 1 + |rest|;
      && FirstAt(line, '.', |mnem|) && FirstAt(line, ':', colon)
      && colon < |line| && line[|mnem| + 1..colon] == rest
  {
    var line := mnem + "." + rest + ":" + desc;
    assert line == mnem + ['.'] + (rest + ":" + desc);
    FirstAtConcat(mnem, '.', rest + ":" + desc);
    var pre := mnem + "." + rest;
    assert line == pre + [':'] + desc;
    assert ':' !in pre by {
      assert forall k :: 0 <= k < |pre| ==>
        pre[k] == if k < |mnem| then mnem[k] else if k == |mnem| then '.' else rest[k - |mnem| - 1];
    }
    FirstAtConcat(pre, ':', desc);
    assert line[|mnem| + 1..|pre|] == rest;
  }

  /**
   * In a line `MNEM.rest:description` whose mnemonic holds no '.' or ':' and whose
   * `rest` holds no ':', the raw value is `rest` stripped: unit and value together.
   */
  lemma StandardLineRaw(mnem: string, rest: string, desc: string)
    requires '.' !in mnem && ':' !in mnem && ':' !in rest
    ensures RawValue(mnem + "." + rest + ":" + desc) == Strip(rest)
  {
    StandardShape(mnem, rest, desc);
    RawValueIs(mnem + "." + rest + ":" + desc, |mnem|, |mnem| + 1 + |rest|, rest);
  }

  /** Where the first '.' of a line without ':' is, and what lies between it and the last character. */
  lemma NoColonShape(mnem: string, rest: string)
    requires '.' !in mnem && ':' !in mnem && ':' !in rest && |rest| > 0
    ensures var line := mnem + "." + rest;
      && FirstAt(line, '.', |mnem|) && FirstAt(line, ':', -1)
      && line[|mnem| + 1..|line| - 1] == rest[..|rest| - 1]
  {
    var line := mnem + "." + rest;
    assert line == mnem + ['.'] + rest;
    FirstAtConcat(mnem, '.', rest);
    assert ':' !in line by {
      assert forall k :: 0 <= k < |line| ==>
        line[k] == if k < |mnem| then mnem[k] else if k == |mnem| then '.' else rest[k - |mnem| - 1];
    }
    assert line[|mnem| + 1..|line| - 1] == rest[..|rest| - 1];
  }

  /**
   * Without any ':' the slice ends one character early: the raw value of `MNEM.rest`
   * is `rest` without its last character, stripped.
   */
  lemma NoColonDropsLastChar(mnem: string, rest: string)
    requires '.' !in mnem && ':' !in mnem && ':' !in rest && |rest| > 0
    ensures RawValue(mnem + "." + rest) == Strip(rest[..|rest| - 1])
  {
    NoColonShape(mnem, rest);
    RawValueIs(mnem + "." + rest, |mnem|, -1, rest[..|rest| - 1]);
  }

  /**
   * A line as read from the file keeps its newline, so on a line without a colon the
   * character dropped is that newline and the whole rest is the value.
   */
  lemma NewlineNoColon(mnem: string, rest: string)
    requires '.' !in mnem && ':' !in mnem && ':' !in rest
    ensures RawValue(mnem + "." + rest + "\n") == Strip(rest)
  {
    assert mnem + "." + rest + "\n" == mnem + "." + (rest + "\n");
    NoColonDropsLastChar(mnem, rest + "\n");
    assert (rest + "\n")[..|rest|] == rest;
  }

  /** Text that starts with whitespace splits into the words before it and its own words. */
  lemma UpperTokensAppend(p: string, d: string)
    requires d == [] || IsSpace(d[0])
    ensures Tokens(Upper(p + d)) == Tokens(Upper(p)) + Tokens(Upper(d))
  {
    UpperAppend(p, d);
    TokensAppend(Upper(p), Upper(d));
  }

  /** A keyword that is a word of the description selects the attribute, whatever the mnemonic is. */
  lemma DescriptionKeyword(mnem: string, rest: string, desc: string, a: Attr)
    requires desc == [] || IsSpace(desc[0])
    requires Keyword(a) in Tokens(Upper(desc))
    ensures Keyword(a) in Tokens(Upper(mnem + "." + rest + ":" + desc))
  {
    UpperTokensAppend(mnem + "." + rest + ":", desc);
  }

  /**
   * On a standard line a numeric attribute whose keyword is a word of the line gets the
   * float of the last word before the ':', NaN when that word is not a float, and
   * nothing when there is no word there.
   */
  lemma StandardNumericLine(mnem: string, rest: string, desc: string, a: Attr)
    requires '.' !in mnem && ':' !in mnem && ':' !in rest
    requires IsNumeric(a)
    ensures var line := mnem + "." + rest + ":" + desc;
      var ts := Tokens(rest);
      LineValue(line, a)
        == if Keyword(a) !in Tokens(Upper(line)) || ts == [] then None
           else match ParseFloat(ts[|ts| - 1])
                case Some(v) => Some(Number(Finite(v)))
                case None => Some(Number(NaN))
  {
    StandardLineRaw(mnem, rest, desc);
    NumericLineValue(mnem + "." + rest + ":" + desc, a);
    TokensOfStrip(rest);
  }

  /** A word `float` accepts has no ':' and is its own only token, also with a blank after it. */
  lemma ValueWord(value: string)
    requires NoSpace(value) && ParseFloat(value).Some?
    ensures |value| > 0 && ':' !in value && Tokens(value + " ") == [value]
  {
    LiteralChars(Strip(value));
    assert |value| > 0;
    StripOfStripped(value);
    assert ':' !in value by {
      forall k | 0 <= k < |value|
        ensures value[k] != ':'
      {
        assert IsLiteralChar(Strip(value)[k]);
      }
    }
    TokensOfWord(value);
    TokensAppend(value, " ");
    TokensEmptyIff(" ");
  }

  /** `UNIT VALUE ` splits into the unit and the value, and holds no ':'. */
  lemma UnitValueShape(unit: string, value: string)
    requires |unit| > 0 && NoSpace(unit) && ':' !in unit
    requires NoSpace(value) && ParseFloat(value).Some?
    ensures var rest := unit + " " + value + " ";
      ':' !in rest && Tokens(rest) == [unit, value]
  {
    ValueWord(value);
    var rest := unit + " " + value + " ";
    assert rest == unit + " " + (value + " ");
    TokensJoin(unit, value + " ");
    assert ':' !in rest by {
      assert forall k :: 0 <= k < |rest| ==>
        rest[k] == if k < |unit| then unit[k] else if k == |unit| then ' '
                   else if k < |unit| + 1 + |value| then value[k - |unit| - 1] else ' ';
    }
  }

  lemma Regroup(mnem: string, unit: string, value: string, desc: string)
    ensures mnem + "." + unit + " " + value + " :" + desc
         == mnem + "." + (unit + " " + value + " ") + ":" + desc
  {
  }

  /** With a unit word and a value word, the value word decides, as in `STRT.FT 1000.0 : START DEPTH`. */
  lemma UnitThenValue(mnem: string, unit: string, value: string, desc: string, a: Attr)
    requires '.' !in mnem && ':' !in mnem
    requires |unit| > 0 && NoSpace(unit) && ':' !in unit
    requires NoSpace(value) && ParseFloat(value).Some?
    requires IsNumeric(a)
    requires desc == [] || IsSpace(desc[0])
    requires Keyword(a) in Tokens(Upper(desc))
    ensures LineValue(mnem + "." + unit + " " + value + " :" + desc, a)
         == Some(Number(Finite(ParseFloat(value).value)))
  {
    var rest := unit + " " + value + " ";
    Regroup(mnem, unit, value, desc);
    UnitValueShape(unit, value);
    DescriptionKeyword(mnem, rest, desc, a);
    StandardNumericLine(mnem, rest, desc, a);
  }

  /** On a standard line DATE, NAME and FIELD get the text before the ':', stripped, in its original case. */
  lemma StandardTextLine(mnem: string, rest: string, desc: string, a: Attr)
    requires '.' !in mnem && ':' !in mnem && ':' !in rest
    requires !IsNumeric(a)
    ensures var line := mnem + "." + rest + ":" + desc;
      LineValue(line, a) == if Keyword(a) in Tokens(Upper(line)) then Some(Text(Strip(rest))) else None
  {
    StandardLineRaw(mnem, rest, desc);
    TextLineValue(mnem + "." + rest + ":" + desc, a);
  }

  /**
   * A line whose words include both FIELD and NAME, such as a field line described as
   * `FIELD NAME`, stores the same text under both attributes.
   */
  lemma FieldNameLine(line: string)
    requires "FIELD" in Tokens(Upper(line)) && "NAME" in Tokens(Upper(line))
    ensures LineValue(line, Field) == LineValue(line, Name) == Some(Text(RawValue(line)))
  {
    TextLineValue(line, Field);
    TextLineValue(line, Name);
  }

  /** The marker word is dropped and the other words of the data-section line are the curve names. */
  lemma MarkerLineNames(marker: string, names: string)
    requires |marker| > 0 && NoSpace(marker)
    ensures LogNames(marker + " " + names) == Tokens(names)
  {
    TokensJoin(marker, names);
  }
}
