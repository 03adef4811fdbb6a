/** The INSERT decoder of sql.ts:471-570 and its helpers (sql.ts:86-157). The statement is cut
    into a word array, and the helpers consume that array from the front with `shift()`.

    Two loops of the source (in `extractValuesList` and `extractQuotedStrings`) stop only at a
    word holding `)` or a quote; once the array is empty `shift() || ''` yields `''` for ever
    and they never return. The specification functions below answer `None` for those inputs
    and every method that runs such a loop requires an answer. `extractKVP` reads `parts[2]`,
    which throws when fewer than three words are left; that is `Threw`. */
module Words {
  import opened Wrappers
  import opened Strings
  import opened Interfaces
  import opened Literals

  /** The shared word array `parts`. */
  class WordQueue {
    var parts: seq<string>

    constructor (words: seq<string>)
      ensures parts == words
    {
      parts := words;
    }

    /** `parts.shift() || ''`: the first word, or `''` once the array is empty, which then
        stays empty. */
    method Shift() returns (w: string)
      modifies this
      ensures old(parts) == [] ==> w == "" && parts == []
      ensures old(parts) != [] ==> w == old(parts)[0] && parts == old(parts)[1..]
    {
      if parts == [] {
        w := "";
      } else {
        w := parts[0];
        parts := parts[1..];
      }
    }
  }

  function Head(parts: seq<string>): string {
    if parts == [] then "" else parts[0]
  }

  function Tail(parts: seq<string>): (r: seq<string>)
    ensures |r| == if parts == [] then 0 else |parts| - 1
  {
    if parts == [] then [] else parts[1..]
  }

  // -----------------------------------------------------------------------------------------
  // Regular-expression replacements
  // -----------------------------------------------------------------------------------------

  /** `` /`|'/g ``. */
  const Ticks: set<char> := {'`', '\''}

  /** `` /`/g ``. */
  const Backtick: set<char> := {'`'}

  /** `replace(/^'|"/, '')`: a single quote at the front, or else the first double quote
      anywhere (the alternation binds the anchor to the single quote only). */
  function StripOpeningQuote(s: string): string {
    if s != [] && s[0] == '\'' then s[1..] else ReplaceFirst(s, "\"", "")
  }

  /** `replace(/'|"$/, '')`: the first single quote anywhere, or else a double quote at the
      very end. */
  function StripClosingQuote(s: string): string {
    if '\'' in s then ReplaceFirst(s, "'", "")
    else if s != [] && s[|s| - 1] == '"' then s[..|s| - 1]
    else s
  }

  // -----------------------------------------------------------------------------------------
  // extractQuotedStrings
  // -----------------------------------------------------------------------------------------

  /** Where the first word holding a quote is. */
  function FirstQuoted(parts: seq<string>): (r: Option<nat>)
    ensures r.None? <==> forall j :: 0 <= j < |parts| ==> !HasQuote(parts[j])
    ensures r.Some? ==>
      && r.value < |parts| && HasQuote(parts[r.value])
      && forall j :: 0 <= j < r.value ==> !HasQuote(parts[j])
  {
    if parts == [] then None
    else if HasQuote(parts[0]) then Some(0)
    else match FirstQuoted(parts[1..])
      case None => None
      case Some(k) => Some(k + 1)
  }

  /** What `extractQuotedStrings` returns and the words it leaves: the first word and every
      word up to the first one holding a quote, joined with single spaces; `None` when no word
      holds a quote (the loop never ends). */
  function QuotedString(parts: seq<string>, first: string): (r: Option<(string, seq<string>)>)
    ensures r.Some? ==> |r.value.1| < |parts|
  {
    match FirstQuoted(parts)
    case None => None
    case Some(k) =>
      Some((Join([StripOpeningQuote(first)] + parts[..k] + [StripClosingQuote(DropTrailingComma(parts[k]))], " "), parts[k + 1..]))
  }

  /** `extractQuotedStrings`. */
  method ExtractQuotedStrings(q: WordQueue, first: string) returns (joined: string)
    requires QuotedString(q.parts, first).Some?
    modifies q
    ensures (joined, q.parts) == QuotedString(old(q.parts), first).value
  {
    ghost var words := q.parts;
    ghost var k := FirstQuoted(words).value;
    ghost var i := 0;
    var stringParts := [StripOpeningQuote(first)];
    var keepProcessing := true;
    while keepProcessing
      invariant keepProcessing ==> i <= k && q.parts == words[i..] && stringParts == [StripOpeningQuote(first)] + words[..i]
      invariant !keepProcessing ==>
        q.parts == words[k + 1..] && stringParts == [StripOpeningQuote(first)] + words[..k] + [StripClosingQuote(DropTrailingComma(words[k]))]
      decreases |q.parts| + (if keepProcessing then 1 else 0)
    {
      var part := q.Shift();
      if HasQuote(part) {
        stringParts := stringParts + [StripClosingQuote(DropTrailingComma(part))];
        keepProcessing := false;
      } else {
        assert words[..i + 1] == words[..i] + [part];
        stringParts := stringParts + [part];
        i := i + 1;
      }
    }
    joined := Join(stringParts, " ");
  }

  lemma {:induction false} FirstQuotedAfter(middle: seq<string>, w: string, rest: seq<string>)
    requires HasQuote(w)
    requires forall j :: 0 <= j < |middle| ==> !HasQuote(middle[j])
    ensures FirstQuoted(middle + [w] + rest) == Some(|middle|)
  {
    if middle != [] {
      assert (middle + [w] + rest)[1..] == middle[1..] + [w] + rest;
      FirstQuotedAfter(middle[1..], w, rest);
    }
  }

  /** The closing word of a quoted text, `b',`, gives back `b`. */
  lemma ClosingWordStripped(b: string)
    requires !HasQuote(b)
    ensures StripClosingQuote(DropTrailingComma(b + "',")) == b
  {
    var t := b + "'";
    assert DropTrailingComma(b + "',") == t;
    IndexOfFirst(t, "'");
    forall j | 0 <= j < |b| ensures !OccursAt(t, "'", j) {
      assert t[j..j + 1][0] == b[j];
    }
    assert t[|b|..|b| + 1] == "'";
    assert OccursAt(t, "'", |b|);
    assert IndexOf(t, "'") == |b|;
    assert t[|b|] == '\'';
    assert t[..|b|] == b;
    assert t[|b| + 1..] == [];
    assert ReplaceFirst(t, "'", "") == b;
  }

  /** A quoted text that the split cut at its spaces is put back together: the opening and
      closing quotes and a trailing comma go, the words are joined with single spaces. */
  lemma QuotedWordsRejoined(a: string, middle: seq<string>, b: string, rest: seq<string>)
    requires !HasQuote(a) && !HasQuote(b)
    requires forall j :: 0 <= j < |middle| ==> !HasQuote(middle[j])
    ensures QuotedString(middle + [b + "',"] + rest, "'" + a) == Some((Join([a] + middle + [b], " "), rest))
  {
    var parts := middle + [b + "',"] + rest;
    assert HasQuote(b + "',");
    FirstQuotedAfter(middle, b + "',", rest);
    assert parts[..|middle|] == middle;
    assert parts[|middle|] == b + "',";
    assert parts[|middle| + 1..] == rest;
    assert StripOpeningQuote("'" + a) == a;
    ClosingWordStripped(b);
  }

  // -----------------------------------------------------------------------------------------
  // extractValuesList
  // -----------------------------------------------------------------------------------------

  /** `nextPart` with backticks and single quotes removed when the caller asks for it. */
  function Dequoted(word: string, dequote: bool): string {
    if dequote then RemoveAll(word, Ticks) else word
  }

  /** The item a closing word (one holding `)`) contributes. */
  function LastItem(partName: string): SqlValue {
    ConvertToCorrectDataType(ReplaceFirst(partName, ")", ""))
  }

  /** The item name `nextPart` gives and the words left after it: dequoted when asked, and
      completed by `extractQuotedStrings` when it holds a quote. */
  function ItemName(parts: seq<string>, nextPart: string, dequote: bool): (r: Option<(string, seq<string>)>)
    ensures r.Some? ==> |r.value.1| <= |parts|
  {
    var name := Dequoted(nextPart, dequote);
    if HasQuote(name) then QuotedString(parts, name) else Some((name, parts))
  }

  /** The item names the `while (!finishedPart)` loop of `extractValuesList` reads, with
      `nextPart` in hand and `parts` still to come, up to and including the closing one, and
      the words it leaves; `None` when it never ends. */
  function ListNames(parts: seq<string>, nextPart: string, dequote: bool): (r: Option<(seq<string>, seq<string>)>)
    ensures r.Some? ==> r.value.0 != []
    decreases |parts|
  {
    match ItemName(parts, nextPart, dequote)
    case None => None
    case Some((partName, rest)) =>
      if Contains(partName, ")") then Some(([partName], rest))
      else if rest == [] then None
      else match ListNames(rest[1..], rest[0], dequote)
        case None => None
        case Some((names, left)) => Some(([partName] + names, left))
  }

  /** The items pushed for those names: every name is converted, the closing one after its
      first `)` is removed. */
  function ItemsOf(names: seq<string>): (r: seq<SqlValue>)
    ensures |r| == |names|
  {
    if names == [] then []
    else if |names| == 1 then [LastItem(names[0])]
    else [ConvertToCorrectDataType(names[0])] + ItemsOf(names[1..])
  }

  /** The `while (!finishedPart)` loop of `extractValuesList` with `nextPart` in hand and
      `parts` still to come: the items it pushes and the words it leaves, or `None` when it
      never ends. */
  function ListLoop(parts: seq<string>, nextPart: string, dequote: bool): Option<(seq<SqlValue>, seq<string>)>
    decreases |parts|
  {
    match ItemName(parts, nextPart, dequote)
    case None => None
    case Some((partName, rest)) =>
      if Contains(partName, ")") then Some(([LastItem(partName)], rest))
      else if rest == [] then None
      else match ListLoop(rest[1..], rest[0], dequote)
        case None => None
        case Some((items, left)) => Some(([ConvertToCorrectDataType(partName)] + items, left))
  }

  /** The loop pushes one item per name it reads, ending with the closing one. */
  lemma {:induction false} ListLoopReadsNames(parts: seq<string>, nextPart: string, dequote: bool)
    ensures ListLoop(parts, nextPart, dequote) ==
      match ListNames(parts, nextPart, dequote)
      case None => None
      case Some((names, left)) => Some((ItemsOf(names), left))
    decreases |parts|
  {
    match ItemName(parts, nextPart, dequote)
    case None =>
    case Some((partName, rest)) =>
      if !Contains(partName, ")") && rest != [] {
        ListLoopReadsNames(rest[1..], rest[0], dequote);
        if ListNames(rest[1..], rest[0], dequote).Some? {
          var names := ListNames(rest[1..], rest[0], dequote).value.0;
          assert ([partName] + names)[1..] == names;
        }
      }
  }

  /** What `extractValuesList` returns and the words it leaves, or `None` when it never
      returns. */
  function ValuesList(parts: seq<string>, first: string, dequote: bool): Option<(seq<SqlValue>, seq<string>)> {
    if Contains(first, ")") then
      if HasQuote(first) then
        match QuotedString(parts, first)
        case None => None
        case Some((joined, rest)) => Some(([LastItem(joined)], rest))
      else Some(([LastItem(first)], parts))
    else
      match ListLoop(Tail(parts), Head(parts), dequote)
      case None => None
      case Some((items, left)) => Some(([ConvertToCorrectDataType(first)] + items, left))
  }

  /** The dequoting and quote completion at the head of the loop body. */
  method ReadItemName(q: WordQueue, nextPart: string, dequote: bool) returns (partName: string)
    requires ItemName(q.parts, nextPart, dequote).Some?
    modifies q
    ensures (partName, q.parts) == ItemName(old(q.parts), nextPart, dequote).value
  {
    partName := if dequote then RemoveAll(nextPart, Ticks) else nextPart;
    if HasQuote(partName) {
      partName := ExtractQuotedStrings(q, partName);
    }
  }

  /** One round of the loop, on names: a closing name ends it, any other name is followed by
      the names read from the next word on. */
  lemma ListNamesStep(parts: seq<string>, nextPart: string, dequote: bool)
    requires ListNames(parts, nextPart, dequote).Some?
    ensures ItemName(parts, nextPart, dequote).Some?
    ensures var (partName, rest) := ItemName(parts, nextPart, dequote).value;
      if Contains(partName, ")") then ListNames(parts, nextPart, dequote).value == ([partName], rest)
      else
        && rest != []
        && ListNames(rest[1..], rest[0], dequote).Some?
        && ListNames(parts, nextPart, dequote).value ==
           ([partName] + ListNames(rest[1..], rest[0], dequote).value.0, ListNames(rest[1..], rest[0], dequote).value.1)
  {
  }

  /** A name that does not close the list is converted as it is. */
  lemma ItemsOfCons(name: string, names: seq<string>)
    requires names != []
    ensures ItemsOf([name] + names) == [ConvertToCorrectDataType(name)] + ItemsOf(names)
  {
    assert ([name] + names)[1..] == names;
  }

  /** The `while (!finishedPart)` loop of `extractValuesList`. */
  method ReadListItems(q: WordQueue, nextPart: string, dequote: bool) returns (items: seq<SqlValue>)
    requires ListLoop(q.parts, nextPart, dequote).Some?
    modifies q
    ensures (items, q.parts) == ListLoop(old(q.parts), nextPart, dequote).value
  {
    ListLoopReadsNames(q.parts, nextPart, dequote);
    ghost var goal := ListNames(q.parts, nextPart, dequote).value;
    ghost var todo := goal.0;
    items := [];
    var next := nextPart;
    var finishedPart := false;
    while !finishedPart
      invariant !finishedPart ==> ListNames(q.parts, next, dequote) == Some((todo, goal.1)) && items + ItemsOf(todo) == ItemsOf(goal.0)
      invariant finishedPart ==> items == ItemsOf(goal.0) && q.parts == goal.1
      decreases |q.parts| + (if finishedPart then 0 else 1)
    {
      ghost var parts0 := q.parts;
      ListNamesStep(parts0, next, dequote);
      var partName := ReadItemName(q, next, dequote);
      if Contains(partName, ")") {
        assert todo == [partName];
        items := items + [LastItem(partName)];
        finishedPart := true;
      } else {
        ghost var rest := q.parts;
        ghost var after := ListNames(rest[1..], rest[0], dequote).value.0;
        assert todo == [partName] + after;
        ItemsOfCons(partName, after);
        AppendAssociative(items, [ConvertToCorrectDataType(partName)], ItemsOf(after));
        items := items + [ConvertToCorrectDataType(partName)];
        next := q.Shift();
        todo := after;
      }
    }
  }

  /** `extractValuesList`. */
  method ExtractValuesList(q: WordQueue, first: string, dequote: bool) returns (values: seq<SqlValue>)
    requires ValuesList(q.parts, first, dequote).Some?
    modifies q
    ensures (values, q.parts) == ValuesList(old(q.parts), first, dequote).value
  {
    if Contains(first, ")") {
      if HasQuote(first) {
        var quotedString := ExtractQuotedStrings(q, first);
        values := [LastItem(quotedString)];
      } else {
        values := [LastItem(first)];
      }
    } else {
      var nextPart := q.Shift();
      var items := ReadListItems(q, nextPart, dequote);
      values := [ConvertToCorrectDataType(first)] + items;
    }
  }

  /** The first word, counting `words[0]` too, whose dequoted text holds `)`. */
  function ClosingAt(words: seq<string>, dequote: bool): (r: Option<nat>)
    ensures r.None? <==> forall j :: 0 <= j < |words| ==> !Contains(Dequoted(words[j], dequote), ")")
    ensures r.Some? ==>
      && r.value < |words| && Contains(Dequoted(words[r.value], dequote), ")")
      && forall j :: 0 <= j < r.value ==> !Contains(Dequoted(words[j], dequote), ")")
  {
    if words == [] then None
    else if Contains(Dequoted(words[0], dequote), ")") then Some(0)
    else match ClosingAt(words[1..], dequote)
      case None => None
      case Some(k) => Some(k + 1)
  }

  /** No word holds a quote once dequoted. */
  predicate QuoteFree(words: seq<string>, dequote: bool) {
    forall j :: 0 <= j < |words| ==> !HasQuote(Dequoted(words[j], dequote))
  }

  /** Every word dequoted. */
  function DequotedAll(words: seq<string>, dequote: bool): (r: seq<string>)
    ensures |r| == |words|
  {
    if words == [] then [] else [Dequoted(words[0], dequote)] + DequotedAll(words[1..], dequote)
  }

  /** One round of the loop on a word without quotes. */
  lemma ListNamesPlainStep(parts: seq<string>, nextPart: string, dequote: bool)
    requires !HasQuote(Dequoted(nextPart, dequote))
    ensures var name := Dequoted(nextPart, dequote);
      ListNames(parts, nextPart, dequote) ==
        if Contains(name, ")") then Some(([name], parts))
        else if parts == [] then None
        else match ListNames(parts[1..], parts[0], dequote)
          case None => None
          case Some((names, left)) => Some(([name] + names, left))
  {
    assert ItemName(parts, nextPart, dequote) == Some((Dequoted(nextPart, dequote), parts));
  }

  /** The first closing word of `words` once its first word is known not to close. */
  lemma ClosingAtTail(words: seq<string>, dequote: bool)
    requires |words| >= 1 && !Contains(Dequoted(words[0], dequote), ")")
    ensures QuoteFree(words, dequote) ==> QuoteFree(words[1..], dequote)
    ensures ClosingAt(words, dequote) ==
      match ClosingAt(words[1..], dequote)
      case None => None
      case Some(k) => Some(k + 1)
  {
    if QuoteFree(words, dequote) {
      forall j | 0 <= j < |words| - 1 ensures !HasQuote(Dequoted(words[1..][j], dequote)) {
        assert words[1..][j] == words[j + 1];
      }
    }
  }

  /** Dequoting the words up to `k + 1` is dequoting the first word, then the rest. */
  lemma DequotedAllCons(words: seq<string>, k: nat, dequote: bool)
    requires k + 2 <= |words|
    ensures words[1..][k + 1..] == words[k + 2..]
    ensures DequotedAll(words[..k + 2], dequote) == [Dequoted(words[0], dequote)] + DequotedAll(words[1..][..k + 1], dequote)
  {
    assert words[..k + 2][1..] == words[1..][..k + 1];
  }

  /** Over words without quotes and without a word holding `)`, the loop never ends. */
  lemma {:induction false} ListNamesPlainNever(words: seq<string>, dequote: bool)
    requires |words| >= 1 && QuoteFree(words, dequote) && ClosingAt(words, dequote).None?
    ensures ListNames(words[1..], words[0], dequote).None?
    decreases |words|
  {
    ListNamesPlainStep(words[1..], words[0], dequote);
    if |words| >= 2 {
      ClosingAtTail(words, dequote);
      ListNamesPlainNever(words[1..], dequote);
    }
  }

  /** A closing word without quotes ends the loop. */
  lemma ListNamesCloses(parts: seq<string>, nextPart: string, dequote: bool)
    requires !HasQuote(Dequoted(nextPart, dequote)) && Contains(Dequoted(nextPart, dequote), ")")
    ensures ListNames(parts, nextPart, dequote) == Some(([Dequoted(nextPart, dequote)], parts))
  {
    assert ItemName(parts, nextPart, dequote) == Some((Dequoted(nextPart, dequote), parts));
  }

  /** Any other word without quotes is read as one name, and the loop goes on. */
  lemma ListNamesGoesOn(parts: seq<string>, nextPart: string, dequote: bool, names: seq<string>, left: seq<string>)
    requires !HasQuote(Dequoted(nextPart, dequote)) && !Contains(Dequoted(nextPart, dequote), ")")
    requires parts != [] && ListNames(parts[1..], parts[0], dequote) == Some((names, left))
    ensures ListNames(parts, nextPart, dequote) == Some(([Dequoted(nextPart, dequote)] + names, left))
  {
    assert ItemName(parts, nextPart, dequote) == Some((Dequoted(nextPart, dequote), parts));
  }

  /** Word `k` is the first word that holds `)` once dequoted. */
  predicate ClosesFirstAt(words: seq<string>, k: nat, dequote: bool) {
    && k < |words| && Contains(Dequoted(words[k], dequote), ")")
    && forall j :: 0 <= j < k ==> !Contains(Dequoted(words[j], dequote), ")")
  }

  /** Both facts carry over from `words` to its tail once the first word is dropped. */
  lemma PlainTail(words: seq<string>, k: nat, dequote: bool)
    requires k >= 1 && QuoteFree(words, dequote) && ClosesFirstAt(words, k, dequote)
    ensures QuoteFree(words[1..], dequote) && ClosesFirstAt(words[1..], k - 1, dequote)
    ensures !HasQuote(Dequoted(words[0], dequote)) && !Contains(Dequoted(words[0], dequote), ")")
  {
    forall j | 0 <= j < |words| - 1 ensures !HasQuote(Dequoted(words[1..][j], dequote)) {
      assert words[1..][j] == words[j + 1];
    }
    forall j | 0 <= j < k - 1 ensures !Contains(Dequoted(words[1..][j], dequote), ")") {
      assert words[1..][j] == words[j + 1];
    }
    assert words[1..][k - 1] == words[k];
  }

  /** Over words without quotes the loop, started on `words[0]`, ends at the first word `k`
      holding `)`, having read every word up to it as one item name and left the words after
      it. */
  lemma {:induction false} ListNamesPlainEnds(words: seq<string>, k: nat, dequote: bool)
    requires QuoteFree(words, dequote) && ClosesFirstAt(words, k, dequote)
    ensures ListNames(words[1..], words[0], dequote) == Some((DequotedAll(words[..k + 1], dequote), words[k + 1..]))
    decreases |words|
  {
    if k == 0 {
      ListNamesCloses(words[1..], words[0], dequote);
      assert DequotedAll(words[..1], dequote) == [Dequoted(words[0], dequote)];
    } else {
      PlainTail(words, k, dequote);
      ListNamesPlainEnds(words[1..], k - 1, dequote);
      DequotedAllCons(words, k - 1, dequote);
      ListNamesGoesOn(words[1..], words[0], dequote, DequotedAll(words[1..][..k], dequote), words[1..][k..]);
    }
  }



  /** Over words without quotes, `extractValuesList` returns exactly when its first item or
      a later word closes the list; the items are the first one and then every word up to the
      closing one, dequoted and converted, and the words after it are left. */
  lemma ValuesListPlain(parts: seq<string>, first: string, dequote: bool)
    requires !HasQuote(first) && QuoteFree(parts, dequote)
    ensures Contains(first, ")") ==> ValuesList(parts, first, dequote) == Some(([LastItem(first)], parts))
    ensures !Contains(first, ")") && ClosingAt(parts, dequote).None? ==> ValuesList(parts, first, dequote).None?
    ensures !Contains(first, ")") && ClosingAt(parts, dequote).Some? ==>
      var k := ClosingAt(parts, dequote).value;
      ValuesList(parts, first, dequote) ==
        Some(([ConvertToCorrectDataType(first)] + ItemsOf(DequotedAll(parts[..k + 1], dequote)), parts[k + 1..]))
  {
    if !Contains(first, ")") {
      ListLoopReadsNames(Tail(parts), Head(parts), dequote);
      if parts == [] {
        assert !Contains(Dequoted("", dequote), ")");
        assert ListNames([], "", dequote).None?;
      } else if ClosingAt(parts, dequote).None? {
        ListNamesPlainNever(parts, dequote);
      } else {
        ListNamesPlainEnds(parts, ClosingAt(parts, dequote).value, dequote);
      }
    }
  }

  /** A value list whose first item is a quoted text with a space in it never finishes when no
      later word holds a quote: the first word is not joined with the rest of the text, and the
      closing quote sends `extractQuotedStrings` looking for another quote. */
  lemma QuotedFirstValueWithSpaceLoops(a: string, b: string, rest: seq<string>)
    requires !HasQuote(a) && !HasQuote(b) && ')' !in a
    requires forall j :: 0 <= j < |rest| ==> !HasQuote(rest[j])
    ensures ValuesList([b + "',"] + rest, "'" + a, false).None?
  {
    var first := "'" + a;
    assert !Contains(first, ")") by {
      IndexOfFirst(first, ")");
      forall j | 0 <= j ensures !OccursAt(first, ")", j) {
        if j + 1 <= |first| {
          assert first[j..j + 1][0] == first[j];
          assert first[j] == '\'' || first[j] in a;
        }
      }
    }
    assert HasQuote(b + "',");
    assert ([b + "',"] + rest)[1..] == rest;
    assert FirstQuoted(rest).None?;
  }

  // -----------------------------------------------------------------------------------------
  // extractKVP (the word-array version)
  // -----------------------------------------------------------------------------------------

  /** The pair built from the words `key = value`: backticks and single quotes removed from
      both, and the first comma from the value. */
  function WordPair(parts: seq<string>): KVP
    requires |parts| >= 3
  {
    (RemoveAll(parts[0], Ticks), ReplaceFirst(RemoveAll(parts[2], Ticks), ",", ""))
  }

  /** What the `extractKVP` loop produces and the words it leaves: a triple of words per pair
      while the words left are a multiple of three, `Threw` when one or two words are left at
      the top of the loop (`parts[2]` is undefined). */
  function KvpWords(parts: seq<string>): Result<(seq<KVP>, seq<string>)>
    decreases |parts|
  {
    if parts == [] then Ok(([], []))
    else if |parts| < 3 then Threw
    else if |parts[3..]| % 3 > 0 then Ok(([WordPair(parts)], parts[3..]))
    else match KvpWords(parts[3..])
      case Threw => Threw
      case Ok((pairs, left)) => Ok(([WordPair(parts)] + pairs, left))
  }

  function Prepend(pairs: seq<KVP>, r: Result<(seq<KVP>, seq<string>)>): Result<(seq<KVP>, seq<string>)> {
    if r.Threw? then Threw else Ok((pairs + r.value.0, r.value.1))
  }

  lemma PrependTwice(a: seq<KVP>, b: seq<KVP>, r: Result<(seq<KVP>, seq<string>)>)
    ensures Prepend(a, Prepend(b, r)) == Prepend(a + b, r)
  {
    if r.Ok? {
      assert a + (b + r.value.0) == (a + b) + r.value.0;
    }
  }

  /** `extractKVP` over the shared word array. */
  method ExtractKVP(q: WordQueue) returns (r: Result<seq<KVP>>)
    modifies q
    ensures r.Threw? <==> KvpWords(old(q.parts)).Threw?
    ensures r.Ok? ==> (r.value, q.parts) == KvpWords(old(q.parts)).value
  {
    ghost var goal := KvpWords(q.parts);
    var extracted: seq<KVP> := [];
    assert goal.Ok? ==> [] + goal.value.0 == goal.value.0;
    assert goal == Prepend(extracted, goal);
    while |q.parts| > 0
      invariant goal == Prepend(extracted, KvpWords(q.parts))
      decreases |q.parts|
    {
      if |q.parts| < 3 {
        return Threw;
      }
      ghost var before := q.parts;
      var key := RemoveAll(q.parts[0], Ticks);
      var value := ReplaceFirst(RemoveAll(q.parts[2], Ticks), ",", "");
      var skipped := q.Shift();
      skipped := q.Shift();
      skipped := q.Shift();
      assert q.parts == before[3..];
      ghost var extractedBefore := extracted;
      extracted := extracted + [(key, value)];
      if |q.parts| % 3 > 0 {
        assert goal == Ok((extracted, q.parts));
        break;
      }
      assert KvpWords(before) == Prepend([(key, value)], KvpWords(q.parts));
      PrependTwice(extractedBefore, [(key, value)], KvpWords(q.parts));
    }
    assert extracted + [] == extracted;
    assert goal.Ok? && (extracted, q.parts) == goal.value;
    return Ok(extracted);
  }

  /** The closed form of the loop: a multiple of three words gives one pair per triple and
      leaves nothing; any other count of three or more gives the first pair only and leaves
      the rest unread; one or two words throw. */
  lemma {:induction false} KvpWordsShape(parts: seq<string>)
    ensures KvpWords(parts).Threw? <==> 1 <= |parts| <= 2
    ensures |parts| >= 3 && |parts| % 3 != 0 ==> KvpWords(parts) == Ok(([WordPair(parts)], parts[3..]))
    ensures |parts| % 3 == 0 ==>
      && KvpWords(parts).Ok?
      && KvpWords(parts).value.1 == []
      && |KvpWords(parts).value.0| == |parts| / 3
      && forall i :: 0 <= i < |parts| / 3 ==> KvpWords(parts).value.0[i] == WordPair(parts[3 * i..])
    decreases |parts|
  {
    if |parts| >= 3 && |parts| % 3 == 0 {
      var rest := parts[3..];
      KvpWordsShape(rest);
      var pairs := KvpWords(parts).value.0;
      forall i | 0 <= i < |parts| / 3 ensures pairs[i] == WordPair(parts[3 * i..]) {
        if i > 0 {
          assert rest[3 * (i - 1)..] == parts[3 * i..];
        }
      }
    }
  }

  // -----------------------------------------------------------------------------------------
  // The word array
  // -----------------------------------------------------------------------------------------

  /** `sql.replace(/\s+/g, ' ')`: every run of white space becomes one space. */
  function CollapseWhitespace(s: string): string
    decreases |s|
  {
    if s == [] then []
    else if IsWhitespace(s[0]) then " " + CollapseWhitespace(TrimStart(s[1..]))
    else [s[0]] + CollapseWhitespace(s[1..])
  }

  /** The words `decodeInsertStatement` works on: the statement with its white space collapsed,
      trimmed, and cut at every space. */
  function Words(sql: string): seq<string> {
    Split(Trim(CollapseWhitespace(sql)), ' ')
  }

  /** The only white space left after collapsing is the plain space. */
  predicate SpacesOnly(s: string) {
    forall i :: 0 <= i < |s| && IsWhitespace(s[i]) ==> s[i] == ' '
  }

  lemma {:induction false} CollapsedToSpaces(s: string)
    ensures SpacesOnly(CollapseWhitespace(s))
    decreases |s|
  {
    if s != [] {
      var t := if IsWhitespace(s[0]) then TrimStart(s[1..]) else s[1..];
      CollapsedToSpaces(t);
      var c := CollapseWhitespace(s);
      assert c[1..] == CollapseWhitespace(t);
      forall i | 0 <= i < |c| && IsWhitespace(c[i]) ensures c[i] == ' ' {
        if i > 0 {
          assert c[i] == CollapseWhitespace(t)[i - 1];
        }
      }
    }
  }

  lemma {:induction false} SplitKeepsCharacters(s: string, sep: char)
    ensures forall k, i :: 0 <= k < |Split(s, sep)| && 0 <= i < |Split(s, sep)[k]| ==> Split(s, sep)[k][i] in s
  {
    if s != [] {
      SplitKeepsCharacters(s[1..], sep);
      var r := Split(s[1..], sep);
      forall k, i | 0 <= k < |Split(s, sep)| && 0 <= i < |Split(s, sep)[k]| ensures Split(s, sep)[k][i] in s {
        if s[0] != sep && k == 0 && i > 0 {
          assert Split(s, sep)[0][i] == r[0][i - 1];
        } else if k > 0 {
          assert Split(s, sep)[k] == r[if s[0] == sep then k - 1 else k];
        }
      }
    }
  }

  /** No word holds white space. */
  lemma WordsHaveNoWhitespace(sql: string)
    ensures forall k, i :: 0 <= k < |Words(sql)| && 0 <= i < |Words(sql)[k]| ==> !IsWhitespace(Words(sql)[k][i])
  {
    var c := CollapseWhitespace(sql);
    CollapsedToSpaces(sql);
    var t := TrimStart(c);
    TrimStartIsSuffix(c);
    TrimEndIsPrefix(t);
    var trimmed := Trim(c);
    assert trimmed == c[|c| - |t|..][..|TrimEnd(t)|];
    assert SpacesOnly(trimmed);
    SplitKeepsCharacters(trimmed, ' ');
    SplitParts(trimmed, ' ');
  }

  // -----------------------------------------------------------------------------------------
  // decodeInsertStatement, clause by clause
  // -----------------------------------------------------------------------------------------

  /** The next word, compared in lower case, is `w`. */
  predicate IsWord(parts: seq<string>, w: string) {
    parts != [] && ToLower(parts[0]) == w
  }

  /** `LOW_PRIORITY | DELAYED | HIGH_PRIORITY | IGNORE | INTO`, exactly one of which must follow
      `INSERT`. */
  predicate IsModifier(parts: seq<string>) {
    || IsWord(parts, "low_priority")
    || IsWord(parts, "delayed")
    || IsWord(parts, "high_priority")
    || IsWord(parts, "ignore")
    || IsWord(parts, "into")
  }

  /** The statement decoded so far and the words not yet read. */
  datatype Decoding = Decoding(statement: InsertStatement, parts: seq<string>)

  /** `None`: the clause never finishes; `Threw`: it throws. */
  type Outcome = Option<Result<Decoding>>

  /** The outcome of a clause that reads a list with `extractValuesList`. */
  function AfterList(list: Option<(seq<SqlValue>, seq<string>)>, update: seq<SqlValue> -> InsertStatement): Outcome {
    match list
    case None => None
    case Some((items, left)) => Some(Ok(Decoding(update(items), left)))
  }

  /** The outcome of a clause that reads assignments with `extractKVP`. */
  function AfterPairs(pairs: Result<(seq<KVP>, seq<string>)>, update: seq<KVP> -> InsertStatement): Outcome {
    match pairs
    case Threw => Some(Threw)
    case Ok((kvp, left)) => Some(Ok(Decoding(update(kvp), left)))
  }

  /** `PARTITION (p1, p2, ...)`: the first name loses its first character (the parenthesis). */
  function PartitionStep(d: Decoding): Outcome {
    if !IsWord(d.parts, "partition") then Some(Ok(d))
    else
      var p := d.parts[1..];
      var firstPartName := RemoveAll(SubstringFrom(Head(p), 1), Ticks);
      AfterList(ValuesList(Tail(p), firstPartName, true), names => d.statement.(partitionNames := names))
  }

  /** `(c1, c2, ...)`: taken when the next word holds `(` anywhere. */
  function ColumnsStep(d: Decoding): Outcome {
    if !(d.parts != [] && Contains(d.parts[0], "(")) then Some(Ok(d))
    else
      var firstColumn := RemoveAll(ReplaceFirst(d.parts[0], "(", ""), Ticks);
      AfterList(ValuesList(d.parts[1..], firstColumn, true), names => d.statement.(columnNames := names))
  }

  /** `VALUES (v1, v2, ...)`: the items keep their quotes. */
  function ValuesStep(d: Decoding): Outcome {
    if !IsWord(d.parts, "values") then Some(Ok(d))
    else
      var p := d.parts[1..];
      var firstValue := ReplaceFirst(Head(p), "(", "");
      AfterList(ValuesList(Tail(p), firstValue, false), values => d.statement.(values := values))
  }

  /** `SET a = x, ...`. */
  function SetStep(d: Decoding): Outcome {
    if !IsWord(d.parts, "set") then Some(Ok(d))
    else AfterPairs(KvpWords(d.parts[1..]), kvp => d.statement.(valuesKVP := kvp))
  }

  /** `AS alias (c1, ...)`: the alias name itself is skipped, the column aliases kept. */
  function AsStep(d: Decoding): Outcome {
    if !IsWord(d.parts, "as") then Some(Ok(d))
    else
      var p := Tail(d.parts[1..]);
      var firstAliasName := RemoveAll(SubstringFrom(Head(p), 1), Ticks);
      AfterList(ValuesList(Tail(p), firstAliasName, true), aliases => d.statement.(rowAliases := aliases))
  }

  /** The position of the first word that is `on` in lower case, or -1. */
  function FirstOn(parts: seq<string>): (r: int)
    ensures -1 <= r < |parts|
    ensures r == -1 <==> forall j :: 0 <= j < |parts| ==> ToLower(parts[j]) != "on"
    ensures r >= 0 ==> ToLower(parts[r]) == "on" && forall j :: 0 <= j < r ==> ToLower(parts[j]) != "on"
  {
    if parts == [] then -1
    else if ToLower(parts[0]) == "on" then 0
    else var r := FirstOn(parts[1..]); if r == -1 then -1 else r + 1
  }

  /** The text of the `SELECT`: the words up to the first `on`, or all of them. */
  function SelectText(parts: seq<string>): string {
    var onIndex := FirstOn(parts);
    if onIndex == -1 then Join(parts, " ") else Join(parts[..onIndex], " ")
  }

  /** `SELECT ...`: the text is recorded, but no word is consumed. */
  function SelectStep(d: Decoding): Outcome {
    if !IsWord(d.parts, "select") then Some(Ok(d))
    else Some(Ok(Decoding(d.statement.(selectStatement := SelectText(d.parts)), d.parts)))
  }

  /** `ON DUPLICATE KEY UPDATE a = x, ...`: four words skipped, then the assignments. */
  function OnStep(d: Decoding): Outcome {
    if !IsWord(d.parts, "on") then Some(Ok(d))
    else AfterPairs(KvpWords(Tail(Tail(Tail(d.parts[1..])))), kvp => d.statement.(onDuplicateKeyUpdate := kvp))
  }

  /** Run `next` after a clause that finished. */
  function Continue(o: Outcome, next: Decoding -> Outcome): Outcome {
    match o
    case None => None
    case Some(Threw) => Some(Threw)
    case Some(Ok(d)) => next(d)
  }

  function FromSelect(d: Decoding): Outcome {
    Continue(SelectStep(d), OnStep)
  }

  function FromAs(d: Decoding): Outcome {
    Continue(AsStep(d), FromSelect)
  }

  function FromSet(d: Decoding): Outcome {
    Continue(SetStep(d), FromAs)
  }

  function FromValues(d: Decoding): Outcome {
    Continue(ValuesStep(d), FromSet)
  }

  function FromColumns(d: Decoding): Outcome {
    Continue(ColumnsStep(d), FromValues)
  }

  /** The clauses after the table name, in the order the source tries them. */
  function FromPartition(d: Decoding): Outcome {
    Continue(PartitionStep(d), FromColumns)
  }

  /** The statement starts `INSERT` followed by one of the modifiers. */
  predicate HasInsertHeader(parts: seq<string>) {
    IsWord(parts, "insert") && IsModifier(parts[1..])
  }

  /** The state after the table name is read. */
  function AfterTableName(parts: seq<string>): Decoding
    requires |parts| >= 2
  {
    var rest := parts[2..];
    Decoding(EmptyInsert.(tableName := RemoveAll(Head(rest), Backtick)), Tail(rest))
  }

  /** What `decodeInsertStatement` returns for `sql`: `None` when it never returns, `Threw`
      when it throws. */
  function DecodeWords(sql: string): Option<Result<InsertStatement>> {
    var parts := Words(sql);
    if !HasInsertHeader(parts) then Some(Ok(EmptyInsert))
    else match FromPartition(AfterTableName(parts))
      case None => None
      case Some(Threw) => Some(Threw)
      case Some(Ok(d)) => Some(Ok(d.statement))
  }

  // -----------------------------------------------------------------------------------------
  // decodeInsertStatement, on the shared word array
  // -----------------------------------------------------------------------------------------

  method ReadPartition(q: WordQueue, st: InsertStatement) returns (st': InsertStatement)
    requires PartitionStep(Decoding(st, q.parts)).Some?
    modifies q
    ensures PartitionStep(Decoding(st, old(q.parts))) == Some(Ok(Decoding(st', q.parts)))
  {
    st' := st;
    if q.parts != [] && ToLower(q.parts[0]) == "partition" {
      var skipped := q.Shift();
      var firstPart := q.Shift();
      var firstPartName := RemoveAll(SubstringFrom(firstPart, 1), Ticks);
      var names := ExtractValuesList(q, firstPartName, true);
      st' := st.(partitionNames := names);
    }
  }

  method ReadColumns(q: WordQueue, st: InsertStatement) returns (st': InsertStatement)
    requires ColumnsStep(Decoding(st, q.parts)).Some?
    modifies q
    ensures ColumnsStep(Decoding(st, old(q.parts))) == Some(Ok(Decoding(st', q.parts)))
  {
    st' := st;
    if q.parts != [] && Contains(q.parts[0], "(") {
      var column := q.Shift();
      var firstColumn := RemoveAll(ReplaceFirst(column, "(", ""), Ticks);
      var names := ExtractValuesList(q, firstColumn, true);
      st' := st.(columnNames := names);
    }
  }

  method ReadValues(q: WordQueue, st: InsertStatement) returns (st': InsertStatement)
    requires ValuesStep(Decoding(st, q.parts)).Some?
    modifies q
    ensures ValuesStep(Decoding(st, old(q.parts))) == Some(Ok(Decoding(st', q.parts)))
  {
    st' := st;
    if q.parts != [] && ToLower(q.parts[0]) == "values" {
      var skipped := q.Shift();
      var value := q.Shift();
      var firstValue := ReplaceFirst(value, "(", "");
      var values := ExtractValuesList(q, firstValue, false);
      st' := st.(values := values);
    }
  }

  method ReadSet(q: WordQueue, st: InsertStatement) returns (st': InsertStatement, threw: bool)
    modifies q
    ensures threw <==> SetStep(Decoding(st, old(q.parts))) == Some(Threw)
    ensures !threw ==> SetStep(Decoding(st, old(q.parts))) == Some(Ok(Decoding(st', q.parts)))
  {
    st', threw := st, false;
    if q.parts != [] && ToLower(q.parts[0]) == "set" {
      var skipped := q.Shift();
      var pairs := ExtractKVP(q);
      if pairs.Threw? {
        threw := true;
      } else {
        st' := st.(valuesKVP := pairs.value);
      }
    }
  }

  method ReadRowAliases(q: WordQueue, st: InsertStatement) returns (st': InsertStatement)
    requires AsStep(Decoding(st, q.parts)).Some?
    modifies q
    ensures AsStep(Decoding(st, old(q.parts))) == Some(Ok(Decoding(st', q.parts)))
  {
    st' := st;
    if q.parts != [] && ToLower(q.parts[0]) == "as" {
      var skipped := q.Shift();
      skipped := q.Shift();
      var firstAlias := q.Shift();
      var firstAliasName := RemoveAll(SubstringFrom(firstAlias, 1), Ticks);
      var aliases := ExtractValuesList(q, firstAliasName, true);
      st' := st.(rowAliases := aliases);
    }
  }

  /** `parts.indexOf(word)`: the first position holding exactly `word`, or -1. */
  function WordIndex(parts: seq<string>, word: string): (r: int)
    ensures -1 <= r < |parts|
    ensures r == -1 <==> word !in parts
    ensures r >= 0 ==> parts[r] == word && forall j :: 0 <= j < r ==> parts[j] != word
  {
    if parts == [] then -1
    else if parts[0] == word then 0
    else var r := WordIndex(parts[1..], word); if r == -1 then -1 else r + 1
  }

  /** The `for ... of` loop that looks for `on` and then asks `indexOf` where it is; the first
      word equal to it is the first `on`, so the two agree. */
  method FindOn(parts: seq<string>) returns (onIndex: int)
    ensures onIndex == FirstOn(parts)
  {
    onIndex := -1;
    for i := 0 to |parts|
      invariant forall j :: 0 <= j < i ==> ToLower(parts[j]) != "on"
    {
      if ToLower(parts[i]) == "on" {
        onIndex := WordIndex(parts, parts[i]);
        assert onIndex <= i;
        return;
      }
    }
  }

  method ReadSelect(q: WordQueue, st: InsertStatement) returns (st': InsertStatement)
    ensures SelectStep(Decoding(st, q.parts)) == Some(Ok(Decoding(st', q.parts)))
  {
    st' := st;
    if q.parts != [] && ToLower(q.parts[0]) == "select" {
      var onIndex := FindOn(q.parts);
      if onIndex == -1 {
        st' := st.(selectStatement := Join(q.parts, " "));
      } else {
        st' := st.(selectStatement := Join(q.parts[..onIndex], " "));
      }
    }
  }

  method ReadOnDuplicateKey(q: WordQueue, st: InsertStatement) returns (st': InsertStatement, threw: bool)
    modifies q
    ensures threw <==> OnStep(Decoding(st, old(q.parts))) == Some(Threw)
    ensures !threw ==> OnStep(Decoding(st, old(q.parts))) == Some(Ok(Decoding(st', q.parts)))
  {
    st', threw := st, false;
    if q.parts != [] && ToLower(q.parts[0]) == "on" {
      var skipped := q.Shift();
      skipped := q.Shift();
      skipped := q.Shift();
      skipped := q.Shift();
      var pairs := ExtractKVP(q);
      if pairs.Threw? {
        threw := true;
      } else {
        st' := st.(onDuplicateKeyUpdate := pairs.value);
      }
    }
  }

  /** `decodeInsertStatement`: `Threw` where the source throws. */
  method DecodeInsertStatement(sql: string) returns (r: Result<InsertStatement>)
    requires DecodeWords(sql).Some?
    ensures r == DecodeWords(sql).value
  {
    var insertStatement := EmptyInsert;
    var q := new WordQueue(Words(sql));
    if q.parts != [] && ToLower(q.parts[0]) == "insert" {
      var skipped := q.Shift();
      if IsModifier(q.parts) {
        skipped := q.Shift();
        var tableName := q.Shift();
        insertStatement := insertStatement.(tableName := RemoveAll(tableName, Backtick));
        assert Decoding(insertStatement, q.parts) == AfterTableName(Words(sql));
        ghost var goal := FromPartition(Decoding(insertStatement, q.parts));
        insertStatement := ReadPartition(q, insertStatement);
        assert goal == FromColumns(Decoding(insertStatement, q.parts));
        insertStatement := ReadColumns(q, insertStatement);
        assert goal == FromValues(Decoding(insertStatement, q.parts));
        insertStatement := ReadValues(q, insertStatement);
        assert goal == FromSet(Decoding(insertStatement, q.parts));
        var threw;
        insertStatement, threw := ReadSet(q, insertStatement);
        if threw {
          return Threw;
        }
        assert goal == FromAs(Decoding(insertStatement, q.parts));
        insertStatement := ReadRowAliases(q, insertStatement);
        assert goal == FromSelect(Decoding(insertStatement, q.parts));
        insertStatement := ReadSelect(q, insertStatement);
        assert goal == OnStep(Decoding(insertStatement, q.parts));
        insertStatement, threw := ReadOnDuplicateKey(q, insertStatement);
        if threw {
          return Threw;
        }
      }
    }
    return Ok(insertStatement);
  }

  // -----------------------------------------------------------------------------------------
  // What the decoder promises
  // -----------------------------------------------------------------------------------------

  /** A statement that does not start `INSERT` plus a modifier decodes to the empty statement. */
  lemma NonInsertIsEmpty(sql: string)
    requires !HasInsertHeader(Words(sql))
    ensures DecodeWords(sql) == Some(Ok(EmptyInsert))
  {
  }

  /** The clause finished with the table name `name`, or did not finish. */
  predicate KeepsName(o: Outcome, name: string) {
    o.Some? && o.value.Ok? ==> o.value.value.statement.tableName == name
  }

  /** No single clause touches the table name. */
  lemma StepsKeepTableName(d: Decoding)
    ensures KeepsName(PartitionStep(d), d.statement.tableName)
    ensures KeepsName(ColumnsStep(d), d.statement.tableName)
    ensures KeepsName(ValuesStep(d), d.statement.tableName)
    ensures KeepsName(SetStep(d), d.statement.tableName)
    ensures KeepsName(AsStep(d), d.statement.tableName)
    ensures KeepsName(SelectStep(d), d.statement.tableName)
    ensures KeepsName(OnStep(d), d.statement.tableName)
  {
  }

  lemma FromSelectKeepsTableName(d: Decoding)
    ensures KeepsName(FromSelect(d), d.statement.tableName)
  {
    StepsKeepTableName(d);
    if SelectStep(d).Some? && SelectStep(d).value.Ok? {
      StepsKeepTableName(SelectStep(d).value.value);
    }
  }

  lemma FromAsKeepsTableName(d: Decoding)
    ensures KeepsName(FromAs(d), d.statement.tableName)
  {
    StepsKeepTableName(d);
    if AsStep(d).Some? && AsStep(d).value.Ok? {
      FromSelectKeepsTableName(AsStep(d).value.value);
    }
  }

  lemma FromSetKeepsTableName(d: Decoding)
    ensures KeepsName(FromSet(d), d.statement.tableName)
  {
    StepsKeepTableName(d);
    if SetStep(d).Some? && SetStep(d).value.Ok? {
      FromAsKeepsTableName(SetStep(d).value.value);
    }
  }

  lemma FromValuesKeepsTableName(d: Decoding)
    ensures KeepsName(FromValues(d), d.statement.tableName)
  {
    StepsKeepTableName(d);
    if ValuesStep(d).Some? && ValuesStep(d).value.Ok? {
      FromSetKeepsTableName(ValuesStep(d).value.value);
    }
  }

  lemma FromColumnsKeepsTableName(d: Decoding)
    ensures KeepsName(FromColumns(d), d.statement.tableName)
  {
    StepsKeepTableName(d);
    if ColumnsStep(d).Some? && ColumnsStep(d).value.Ok? {
      FromValuesKeepsTableName(ColumnsStep(d).value.value);
    }
  }

  /** No clause touches the table name. */
  lemma ClausesKeepTableName(d: Decoding)
    ensures KeepsName(FromPartition(d), d.statement.tableName)
  {
    StepsKeepTableName(d);
    if PartitionStep(d).Some? && PartitionStep(d).value.Ok? {
      FromColumnsKeepsTableName(PartitionStep(d).value.value);
    }
  }

  /** The table name is the third word with its backticks removed. */
  lemma TableNameIsThirdWord(sql: string)
    requires HasInsertHeader(Words(sql))
    requires DecodeWords(sql).Some? && DecodeWords(sql).value.Ok?
    ensures DecodeWords(sql).value.value.tableName == RemoveAll(Head(Words(sql)[2..]), Backtick)
  {
    ClausesKeepTableName(AfterTableName(Words(sql)));
  }

  /** After `SELECT` no word is consumed, so a following `ON DUPLICATE KEY UPDATE` is never
      decoded: the select text stops before `on`, and the assignments stay empty. */
  lemma SelectLeavesOnDuplicateKeyUnread(d: Decoding)
    requires IsWord(d.parts, "select")
    requires d.statement.onDuplicateKeyUpdate == []
    ensures FromSelect(d) == Some(Ok(Decoding(d.statement.(selectStatement := SelectText(d.parts)), d.parts)))
    ensures FromSelect(d).value.value.statement.onDuplicateKeyUpdate == []
  {
  }
}
