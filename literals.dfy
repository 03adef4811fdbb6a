/** `convertToCorrectDataType` of sql.ts:67-84: how the word-array decoder turns the text of
    one list item into a JavaScript value. `parseFloat` is modelled by when it succeeds (it
    reads the longest numeric prefix after leading white space and gives NaN when there is
    none); the number it reads is not modelled, `Num` keeps the text. */
module Literals {
  import opened Strings
  import opened Interfaces

  /** `value.replace(/,$/, '')`: a comma at the very end is removed, and only one. */
  function DropTrailingComma(value: string): string {
    if value != [] && value[|value| - 1] == ',' then value[..|value| - 1] else value
  }

  /** `parseFloat(s)` is a number (not NaN): after leading white space and an optional sign
      comes `Infinity`, a digit, or a point followed by a digit. */
  predicate ParsesAsNumber(s: string) {
    var t := TrimStart(s);
    var u := if t != [] && (t[0] == '+' || t[0] == '-') then t[1..] else t;
    || StartsWith(u, "Infinity")
    || (u != [] && IsDigit(u[0]))
    || (|u| >= 2 && u[0] == '.' && IsDigit(u[1]))
  }

  /** `convertToCorrectDataType`. */
  function ConvertToCorrectDataType(value: string): (r: SqlValue)
    ensures r == Null <==> DropTrailingComma(value) == "null"
    ensures r.Num? <==> !HasQuote(DropTrailingComma(value)) && DropTrailingComma(value) != "null" && ParsesAsNumber(DropTrailingComma(value))
    ensures !r.Bool?
    ensures r.Str? ==> r.text == DropTrailingComma(value)
    ensures r.Num? ==> r.literal == DropTrailingComma(value)
  {
    var v := DropTrailingComma(value);
    if HasQuote(v) then Str(v)
    else if v == "null" then Null
    else if ParsesAsNumber(v) then Num(v)
    else Str(v)
  }

  /** Text holding a quote is kept as it is, quotes included. */
  lemma QuotedKeptVerbatim(value: string)
    requires HasQuote(value) && (value == [] || value[|value| - 1] != ',')
    ensures ConvertToCorrectDataType(value) == Str(value)
  {
  }

  /** One trailing comma makes no difference. */
  lemma TrailingCommaIgnored(value: string)
    requires value == [] || value[|value| - 1] != ','
    ensures ConvertToCorrectDataType(value + ",") == ConvertToCorrectDataType(value)
  {
    assert (value + ",")[..|value|] == value;
  }

  /** Only one trailing comma is removed: the second one stays in the text of the number. */
  lemma SecondCommaStays()
    ensures ConvertToCorrectDataType("1,,") == Num("1,")
  {
    assert DropTrailingComma("1,,") == "1,";
    assert TrimStart("1,") == "1,";
  }

  /** `null` is recognised in lower case only; `NULL` is not a number either and stays text. */
  lemma UpperNullIsText()
    ensures ConvertToCorrectDataType("NULL") == Str("NULL")
  {
    assert TrimStart("NULL") == "NULL";
  }

  /** The decimal text of every integer is read as a number. */
  lemma IntegerIsNumber(n: int)
    ensures ConvertToCorrectDataType(IntToString(n)) == Num(IntToString(n))
  {
    var s := IntToString(n);
    assert s[|s| - 1] != ',' && !HasQuote(s) by {
      assert IsDigit(s[|s| - 1]) || s[|s| - 1] == '-';
      assert forall k :: 0 <= k < |s| ==> s[k] != '\'' && s[k] != '"';
    }
    assert TrimStart(s) == s by {
      assert IsDigit(s[0]) || s[0] == '-';
    }
    if n < 0 {
      assert s[1..] == NatToString(-n);
      assert IsDigit(s[1..][0]);
    } else {
      assert IsDigit(s[0]);
    }
  }
}
