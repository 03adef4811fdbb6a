/** The process-wide log buffer of log.ts: an append-only list of entries that the executor
    writes into and that is printed once at the end of a run. */
module Logging {
  import opened Wrappers
  import opened Strings
  import opened Interfaces

  /** The progress marker `${index} of ${length}`. */
  function Progress(index: int, length: int): string {
    IntToString(index) + " of " + IntToString(length)
  }

  predicate IsIntegerText(s: string) {
    forall i :: 0 <= i < |s| ==> IsDigit(s[i]) || s[i] == '-'
  }

  /** Reads a progress marker back into its index and length. */
  function ReadProgress(p: string): Option<(int, int)> {
    var k := IndexOf(p, " of ");
    if k < 0 then None
    else
      var a, b := p[..k], p[k + 4..];
      if IsIntegerText(a) && IsIntegerText(b) then Some((ParseInt(a), ParseInt(b))) else None
  }

  /** The marker holds the index and the length and nothing else: reading it back gives both. */
  lemma ProgressRoundTrip(index: int, length: int)
    ensures ReadProgress(Progress(index, length)) == Some((index, length))
  {
    var a, b := IntToString(index), IntToString(length);
    var p := Progress(index, length);
    assert p == a + " of " + b;
    assert p[|a|..|a| + 4] == " of ";
    assert OccursAt(p, " of ", |a|);
    var k := IndexOf(p, " of ");
    IndexOfFirst(p, " of ");
    forall j | 0 <= j < |a| ensures !OccursAt(p, " of ", j) {
      assert p[j] == a[j];
    }
    assert k == |a|;
    assert p[..k] == a;
    assert p[k + 4..] == b;
    ParseIntToString(index);
    ParseIntToString(length);
  }

  /** `Log`: the static `messages` array and the two methods that push onto it. */
  class Log {
    var messages: seq<LogStructure>

    constructor ()
      ensures messages == []
    {
      messages := [];
    }

    /** `Log.info`: one entry of severity info at the end; `payload` defaults to null. */
    method Info(message: string, index: int, length: int, payload: Option<InsertStatement> := None)
      modifies this
      ensures messages == old(messages) + [LogStructure(Severity.Info, message, payload, Progress(index, length))]
    {
      messages := messages + [LogStructure(Severity.Info, message, payload, Progress(index, length))];
    }

    /** `Log.error`: one entry of severity error at the end; `payload` defaults to null. */
    method Error(message: string, index: int, length: int, payload: Option<InsertStatement> := None)
      modifies this
      ensures messages == old(messages) + [LogStructure(Severity.Error, message, payload, Progress(index, length))]
    {
      messages := messages + [LogStructure(Severity.Error, message, payload, Progress(index, length))];
    }
  }

  // -----------------------------------------------------------------------------------------
  // What `Log.print` writes, as data (the console itself is not modelled)
  // -----------------------------------------------------------------------------------------

  datatype Line = Text(text: string) | PayloadDump(payload: InsertStatement)

  function Repeat(c: char, n: nat): (r: string)
    ensures |r| == n && forall i :: 0 <= i < n ==> r[i] == c
  {
    if n == 0 then [] else [c] + Repeat(c, n - 1)
  }

  function Header(e: LogStructure): string {
    if e.severity == Info then "[INFO][" + e.progress + "] " + e.message
    else "[ERROR][" + e.progress + "] " + e.message
  }

  function RenderEntry(e: LogStructure): seq<Line> {
    [Text(Repeat('=', 80)), Text(Header(e))] + (if e.payload.Some? then [PayloadDump(e.payload.value)] else [])
  }

  /** `Log.print`: every entry in insertion order. */
  function Render(entries: seq<LogStructure>): seq<Line> {
    if entries == [] then [] else RenderEntry(entries[0]) + Render(entries[1..])
  }

  /** Printing a longer log prints the shorter one first: entries appended later never
      appear before earlier ones. */
  lemma {:induction false} RenderAppend(a: seq<LogStructure>, b: seq<LogStructure>)
    ensures Render(a + b) == Render(a) + Render(b)
  {
    if a != [] {
      assert (a + b)[0] == a[0];
      assert (a + b)[1..] == a[1..] + b;
      RenderAppend(a[1..], b);
    } else {
      assert a + b == b;
    }
  }

  /** Each entry prints as a separator line, then its header, then its payload when present. */
  lemma RenderOne(e: LogStructure)
    ensures |Render([e])| == if e.payload.Some? then 3 else 2
    ensures Render([e])[0] == Text(Repeat('=', 80))
    ensures Render([e])[1].Text? && StartsWith(Render([e])[1].text, if e.severity == Info then "[INFO][" else "[ERROR][")
  {
    assert [e][1..] == [];
  }
}
