/** The list helpers that SQLParser.ts and SQLTokeniser.ts each carry a copy of (the copies
    are character-for-character the same): the quote-aware comma splitter `extractCSV`, the
    parenthesised-list check `extractList` and the assignment splitter `extractKVP`. */
module Lists {
  import opened Wrappers
  import opened Strings

  // -----------------------------------------------------------------------------------------
  // extractCSV
  // -----------------------------------------------------------------------------------------

  /** The untrimmed fields of `s` when the scan starts inside quotes (`inQuotes`) or not:
      a comma outside quotes ends a field; a quote character toggles the quote state and,
      like every other character, stays in the field. */
  function Fields(s: string, inQuotes: bool): (r: seq<string>)
    ensures |r| >= 1
  {
    if s == [] then [[]]
    else if s[0] == ',' && !inQuotes then [[]] + Fields(s[1..], inQuotes)
    else
      var r := Fields(s[1..], if IsQuote(s[0]) then !inQuotes else inQuotes);
      [[s[0]] + r[0]] + r[1..]
  }

  /** `text` glued to the front of the first field. */
  function Glue(text: string, fields: seq<string>): seq<string>
    requires |fields| >= 1
  {
    [text + fields[0]] + fields[1..]
  }

  lemma GlueEmpty(fields: seq<string>)
    requires |fields| >= 1
    ensures Glue("", fields) == fields
  {
    assert [] + fields[0] == fields[0];
  }

  function TrimAll(fields: seq<string>): (r: seq<string>)
    ensures |r| == |fields|
    ensures forall i :: 0 <= i < |r| ==> r[i] == Trim(fields[i])
  {
    seq(|fields|, i requires 0 <= i < |fields| => Trim(fields[i]))
  }

  lemma TrimAllAppend(fields: seq<string>, last: string)
    ensures TrimAll(fields + [last]) == TrimAll(fields) + [Trim(last)]
  {
  }

  /** The fields `extractCSV` returns. */
  function Csv(s: string): seq<string> {
    TrimAll(Fields(s, false))
  }

  /** The number of commas of `s` that lie outside quotes. */
  function CommasOutsideQuotes(s: string, inQuotes: bool): nat {
    if s == [] then 0
    else (if s[0] == ',' && !inQuotes then 1 else 0)
         + CommasOutsideQuotes(s[1..], if IsQuote(s[0]) then !inQuotes else inQuotes)
  }

  /** One field more than there are commas outside quotes; in particular never empty. */
  lemma {:induction false} FieldsCount(s: string, inQuotes: bool)
    ensures |Fields(s, inQuotes)| == CommasOutsideQuotes(s, inQuotes) + 1
  {
    if s != [] {
      FieldsCount(s[1..], if IsQuote(s[0]) then !inQuotes else inQuotes);
    }
  }

  /** Before trimming, the fields joined with commas give back the input exactly. */
  lemma {:induction false} FieldsJoin(s: string, inQuotes: bool)
    ensures Join(Fields(s, inQuotes), ",") == s
  {
    if s == [] {
    } else if s[0] == ',' && !inQuotes {
      FieldsJoin(s[1..], inQuotes);
      assert ([[]] + Fields(s[1..], inQuotes))[1..] == Fields(s[1..], inQuotes);
    } else {
      var r := Fields(s[1..], if IsQuote(s[0]) then !inQuotes else inQuotes);
      FieldsJoin(s[1..], if IsQuote(s[0]) then !inQuotes else inQuotes);
      JoinConsHead([s[0]], r, ",");
      assert s == [s[0]] + s[1..];
    }
  }

  /** Text with no quote character, and no comma unless the scan is inside quotes, only
      extends the current field. */
  lemma {:induction false} FieldsPlain(x: string, inQuotes: bool, rest: string)
    requires forall i :: 0 <= i < |x| ==> !IsQuote(x[i]) && (inQuotes || x[i] != ',')
    ensures Fields(x + rest, inQuotes) == Glue(x, Fields(rest, inQuotes))
  {
    if x == [] {
      assert x + rest == rest;
      GlueEmpty(Fields(rest, inQuotes));
    } else {
      assert (x + rest)[1..] == x[1..] + rest;
      FieldsPlain(x[1..], inQuotes, rest);
      GlueGlue([x[0]], x[1..], Fields(rest, inQuotes));
      assert [x[0]] + x[1..] == x;
    }
  }

  lemma GlueGlue(x: string, y: string, fields: seq<string>)
    requires |fields| >= 1
    ensures Glue(x, Glue(y, fields)) == Glue(x + y, fields)
  {
    assert x + (y + fields[0]) == (x + y) + fields[0];
  }

  /** A comma between quotes stays in its field: in `a'm'b` with no quote in `a` or `m` and
      no comma in `a`, the first field runs at least to the closing quote. */
  lemma QuotedCommaStays(a: string, m: string, b: string)
    requires forall i :: 0 <= i < |a| ==> !IsQuote(a[i]) && a[i] != ','
    requires forall i :: 0 <= i < |m| ==> !IsQuote(m[i])
    ensures Fields(a + "'" + m + "'" + b, false) == Glue(a + "'" + m + "'", Fields(b, false))
  {
    var fb := Fields(b, false);
    var x := "'" + b;
    assert Fields(x, true) == Glue("'", fb) by {
      assert x[1..] == b;
    }
    var y := m + x;
    FieldsPlain(m, true, x);
    var z := "'" + y;
    assert Fields(z, false) == Glue("'", Fields(y, true)) by {
      assert z[1..] == y;
    }
    FieldsPlain(a, false, z);
    GlueGlue(m, "'", fb);
    GlueGlue("'", m + "'", fb);
    GlueGlue(a, "'" + (m + "'"), fb);
    assert a + z == a + "'" + m + "'" + b;
    assert a + ("'" + (m + "'")) == a + "'" + m + "'";
  }

  /** One step of the `extractCSV` scan: a comma outside quotes closes the current field. */
  lemma CommaStep(raw: seq<string>, current: string, rest: seq<string>)
    requires |rest| >= 1
    ensures raw + Glue(current, [[]] + rest) == (raw + [current]) + Glue("", rest)
  {
    GlueEmpty(rest);
    assert current + [] == current;
  }

  /** One step of the `extractCSV` scan: any other character joins the current field. */
  lemma CharStep(raw: seq<string>, current: string, c: char, rest: seq<string>)
    requires |rest| >= 1
    ensures raw + Glue(current, [[c] + rest[0]] + rest[1..]) == raw + Glue(current + [c], rest)
  {
    assert current + ([c] + rest[0]) == (current + [c]) + rest[0];
  }

  /** `extractCSV`: the character loop with its `inQuotes` and `currentColumn` accumulators. */
  method ExtractCSV(str: string) returns (columns: seq<string>)
    ensures columns == Csv(str)
    ensures |columns| == CommasOutsideQuotes(str, false) + 1
  {
    columns := [];
    var currentColumn := "";
    var inQuotes := false;
    ghost var raw: seq<string> := [];
    assert str[0..] == str;
    GlueEmpty(Fields(str, false));
    var i := 0;
    while i < |str|
      invariant i <= |str|
      invariant columns == TrimAll(raw)
      invariant Fields(str, false) == raw + Glue(currentColumn, Fields(str[i..], inQuotes))
    {
      var c := str[i];
      ghost var rest := Fields(str[i + 1..], if IsQuote(c) then !inQuotes else inQuotes);
      assert Fields(str[i..], inQuotes) ==
        if c == ',' && !inQuotes then [[]] + rest else [[c] + rest[0]] + rest[1..]
      by {
        assert str[i..][0] == c && str[i..][1..] == str[i + 1..];
      }
      if c == ',' && !inQuotes {
        CommaStep(raw, currentColumn, rest);
        TrimAllAppend(raw, currentColumn);
        columns := columns + [Trim(currentColumn)];
        raw := raw + [currentColumn];
        currentColumn := "";
      } else {
        CharStep(raw, currentColumn, c, rest);
        if c == '\'' || c == '"' {
          inQuotes := !inQuotes;
        }
        currentColumn := currentColumn + [c];
      }
      i := i + 1;
    }
    assert Fields(str, false) == raw + [currentColumn] by {
      assert str[|str|..] == [];
      assert currentColumn + [] == currentColumn;
    }
    columns := columns + [Trim(currentColumn)];
    TrimAllAppend(raw, currentColumn);
    FieldsCount(str, false);
  }

  // -----------------------------------------------------------------------------------------
  // extractList
  // -----------------------------------------------------------------------------------------

  /** Whether a scan of `s` that toggles on every quote character ends inside quotes. */
  function QuotesOpen(s: string): bool {
    if s == [] then false else QuotesOpen(s[..|s| - 1]) != IsQuote(s[|s| - 1])
  }

  /** The text without one space at index 0. */
  function DropLeadingSpace(s: string): string {
    if s != [] && s[0] == ' ' then s[1..] else s
  }

  /** What `extractList` returns: the text, less one leading space, when it is a complete
      parenthesised list (it starts with `(`, ends with `)` and leaves no quote open). */
  function BalancedList(str: string): (r: Option<string>)
    ensures r.Some? ==> StartsWith(r.value, "(") && EndsWith(r.value, ")") && |r.value| >= 1
  {
    var list := DropLeadingSpace(str);
    if StartsWith(list, "(") && EndsWith(list, ")") && !QuotesOpen(str) then Some(list) else None
  }

  /** `extractList`: the character loop with its `inQuotes` and `list` accumulators. */
  method ExtractList(str: string) returns (r: Option<string>)
    ensures r == BalancedList(str)
  {
    var list := "";
    var inQuotes := false;
    for i := 0 to |str|
      invariant inQuotes == QuotesOpen(str[..i])
      invariant list == DropLeadingSpace(str[..i])
    {
      var c := str[i];
      assert str[..i + 1][..i] == str[..i];
      if i == 0 && c == ' ' && !inQuotes {
        continue;
      } else if c == '\'' || c == '"' {
        inQuotes := !inQuotes;
      }
      list := list + [c];
    }
    assert str[..|str|] == str;
    if StartsWith(list, "(") && EndsWith(list, ")") && !inQuotes {
      r := Some(list);
    } else {
      r := None;
    }
  }

  // -----------------------------------------------------------------------------------------
  // extractKVP
  // -----------------------------------------------------------------------------------------

  /** `s.replace(/\s=\s/g, '=')`: left to right, non-overlapping. */
  function CollapseEquals(s: string): string {
    if |s| >= 3 && IsWhitespace(s[0]) && s[1] == '=' && IsWhitespace(s[2]) then "=" + CollapseEquals(s[3..])
    else if s == [] then []
    else [s[0]] + CollapseEquals(s[1..])
  }

  /** The items `extractKVP` iterates over: split on every comma, quoted or not. */
  function KvpItems(str: string): seq<string> {
    Split(CollapseEquals(Trim(str)), ',')
  }

  /** One item's key and value: the trimmed text before the first `=` and between the first
      and the second `=`. An item without `=` makes `parts[1].trim()` throw. */
  function Assignment(item: string): Option<(string, string)> {
    var parts := Split(item, '=');
    if |parts| < 2 then None else Some((Trim(parts[0]), Trim(parts[1])))
  }

  /** The object after assigning every item in order onto `m`; a later key overwrites. */
  function Assign(m: map<string, string>, items: seq<string>): Option<map<string, string>>
    decreases |items|
  {
    if items == [] then Some(m)
    else match Assignment(items[0])
      case None => None
      case Some(kv) => Assign(m[kv.0 := kv.1], items[1..])
  }

  /** The object `extractKVP` returns, or None when it throws. */
  function Kvp(str: string): Option<map<string, string>> {
    Assign(map[], KvpItems(str))
  }

  /** `extractKVP`: fills the dictionary item by item. */
  method ExtractKVP(str: string) returns (r: Option<map<string, string>>)
    ensures r == Kvp(str)
  {
    var items := KvpItems(str);
    var kvp: map<string, string> := map[];
    for i := 0 to |items|
      invariant Assign(kvp, items[i..]) == Kvp(str)
    {
      assert items[i..][0] == items[i] && items[i..][1..] == items[i + 1..];
      var parts := Split(items[i], '=');
      if |parts| < 2 {
        return None;
      }
      kvp := kvp[Trim(parts[0]) := Trim(parts[1])];
    }
    assert items[|items|..] == [];
    return Some(kvp);
  }

  /** `extractKVP` succeeds exactly when every comma-separated item holds an `=`. */
  lemma {:induction false} AssignSucceeds(m: map<string, string>, items: seq<string>)
    ensures Assign(m, items).Some? <==> forall i :: 0 <= i < |items| ==> '=' in items[i]
    decreases |items|
  {
    if items != [] {
      SplitMany(items[0], '=');
      match Assignment(items[0])
      case None =>
      case Some(kv) =>
        AssignSucceeds(m[kv.0 := kv.1], items[1..]);
        assert forall i :: 1 <= i < |items| ==> items[i] == items[1..][i - 1];
    }
  }

  /** The keys the items assign, in a definition independent of the fold. */
  function AssignedKeys(items: seq<string>): set<string> {
    if items == [] then {}
    else (if Assignment(items[0]).Some? then {Assignment(items[0]).value.0} else {}) + AssignedKeys(items[1..])
  }

  /** The keys are the initial keys plus the key of every item. */
  lemma {:induction false} AssignKeys(m: map<string, string>, items: seq<string>)
    requires Assign(m, items).Some?
    ensures Assign(m, items).value.Keys == m.Keys + AssignedKeys(items)
    decreases |items|
  {
    if items != [] {
      var kv := Assignment(items[0]).value;
      AssignKeys(m[kv.0 := kv.1], items[1..]);
    }
  }

  /** A repeated key keeps the value of its last item. */
  lemma {:induction false} AssignLastWins(m: map<string, string>, items: seq<string>, j: nat)
    requires Assign(m, items).Some?
    requires j < |items| && Assignment(items[j]).Some?
    requires forall l :: j < l < |items| && Assignment(items[l]).Some? ==>
               Assignment(items[l]).value.0 != Assignment(items[j]).value.0
    ensures Assignment(items[j]).value.0 in Assign(m, items).value
    ensures Assign(m, items).value[Assignment(items[j]).value.0] == Assignment(items[j]).value.1
    decreases |items|
  {
    var kv := Assignment(items[0]).value;
    if j == 0 {
      KeptUnlessAssigned(m[kv.0 := kv.1], items[1..], kv.0);
    } else {
      forall l | j - 1 < l < |items[1..]| && Assignment(items[1..][l]).Some?
        ensures Assignment(items[1..][l]).value.0 != Assignment(items[1..][j - 1]).value.0
      {
        assert items[1..][l] == items[l + 1];
      }
      AssignLastWins(m[kv.0 := kv.1], items[1..], j - 1);
    }
  }

  /** A key no item assigns keeps its value. */
  lemma {:induction false} KeptUnlessAssigned(m: map<string, string>, items: seq<string>, k: string)
    requires Assign(m, items).Some? && k in m
    requires forall l :: 0 <= l < |items| && Assignment(items[l]).Some? ==> Assignment(items[l]).value.0 != k
    ensures k in Assign(m, items).value && Assign(m, items).value[k] == m[k]
    decreases |items|
  {
    if items != [] {
      var kv := Assignment(items[0]).value;
      assert Assignment(items[0]).value.0 != k;
      forall l | 0 <= l < |items[1..]| && Assignment(items[1..][l]).Some?
        ensures Assignment(items[1..][l]).value.0 != k
      {
        assert items[1..][l] == items[l + 1];
      }
      KeptUnlessAssigned(m[kv.0 := kv.1], items[1..], k);
    }
  }

  /** Text without white space is left alone by the ` = ` rewrite. */
  lemma {:induction false} CollapseNoWhitespace(s: string)
    requires NoWhitespace(s)
    ensures CollapseEquals(s) == s
  {
    if s != [] {
      CollapseNoWhitespace(s[1..]);
      assert s == [s[0]] + s[1..];
    }
  }

  /** Text that is neither white space nor a comma nor an equals sign. */
  predicate Plain(s: string) {
    forall i :: 0 <= i < |s| ==> !IsWhitespace(s[i]) && s[i] != ',' && s[i] != '='
  }

  predicate NoWhitespace(s: string) {
    forall i :: 0 <= i < |s| ==> !IsWhitespace(s[i])
  }

  lemma QuotedPieces(key: string, v1: string, v2: string)
    requires Plain(key) && Plain(v1) && Plain(v2)
    ensures ',' !in key + "='" + v1
    ensures ',' !in v2 + "'" && '=' !in v2 + "'"
    ensures NoWhitespace(key + "='" + v1 + "," + v2 + "'")
  {
    var head := key + "='" + v1;
    var tail := v2 + "'";
    forall i | 0 <= i < |head| ensures head[i] != ',' && !IsWhitespace(head[i]) {
      if i < |key| {
        assert head[i] == key[i];
      } else if i >= |key| + 2 {
        assert head[i] == v1[i - |key| - 2];
      }
    }
    forall i | 0 <= i < |tail| ensures tail[i] != ',' && tail[i] != '=' && !IsWhitespace(tail[i]) {
      if i < |v2| {
        assert tail[i] == v2[i];
      }
    }
    var s := head + [','] + tail;
    assert s == key + "='" + v1 + "," + v2 + "'";
    forall i | 0 <= i < |s| ensures !IsWhitespace(s[i]) {
      if i < |head| {
        assert s[i] == head[i];
      } else if i > |head| {
        assert s[i] == tail[i - |head| - 1];
      }
    }
  }

  /** Text without white space is split on its commas as it stands. */
  lemma ItemsWithoutWhitespace(s: string)
    requires NoWhitespace(s)
    ensures KvpItems(s) == Split(s, ',')
  {
    if s != [] {
      assert !IsWhitespace(s[0]) && !IsWhitespace(s[|s| - 1]);
    }
    TrimOfTrimmed(s);
    CollapseNoWhitespace(s);
  }

  /** The splitter is not quote-aware: in `k='x,y'` the comma inside the quoted value cuts
      the item, the piece `y'` after it has no `=`, and `extractKVP` throws. */
  lemma KvpQuotedCommaThrows(key: string, v1: string, v2: string)
    requires Plain(key) && Plain(v1) && Plain(v2)
    ensures Kvp(key + "='" + v1 + "," + v2 + "'") == None
  {
    var head := key + "='" + v1;
    var tail := v2 + "'";
    var s := head + [','] + tail;
    assert s == key + "='" + v1 + "," + v2 + "'";
    QuotedPieces(key, v1, v2);
    ItemsWithoutWhitespace(s);
    SplitAround(head, ',', tail);
    SplitNone(tail, ',');
    var items := KvpItems(s);
    assert items == [head, tail];
    AssignSucceeds(map[], items);
  }
}
