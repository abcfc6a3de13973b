/**
 * Concurrent exchanges on one printer.  An exchange gets its number from a
 * shared counter, buffers its items, and flushes them in one locked write.
 * Texts may hold anything, newlines included.
 */
module TracePrinter {
  import opened Common
  import opened Int64
  import opened Headers
  import opened TraceFormat
  import opened TraceLegs
  import opened TraceExchange
  import opened TraceInputs

  /** An exchange: its number, its request, and what has been written since. */
  datatype Trace = Trace(id: nat, info: RequestInfo, entries: seq<Entry>, done: bool)

  /** The items that the writers of an exchange append, one call after the other. */
  ghost function EntriesItems(maxBody: int, id: nat, entries: seq<Entry>): seq<Item> {
    if entries == [] then []
    else
      var n := |entries| - 1;
      EntriesItems(maxBody, id, entries[..n]) + EntryItems(maxBody, id, entries[n])
  }

  ghost function Items(maxBody: int, t: Trace): seq<Item> {
    RequestItems(maxBody, t.id, t.info) + EntriesItems(maxBody, t.id, t.entries)
  }

  /** The printer: its counter, the exchanges in order of start, the flushed ones in order, and the output. */
  datatype State = State(started: nat, traces: seq<Trace>, order: seq<nat>, output: string)

  /** The number of the exchange that t others precede: an atomic 64-bit counter, incremented first. */
  function Number(t: nat): nat {
    (t + 1) % TWO_64
  }

  datatype Step =
    | Start(info: RequestInfo)
    | Write(trace: nat, entry: Entry)
    | Flush(trace: nat)

  const INIT := State(0, [], [], "")

  /** Header names are what net/http admits, and the remote response is written directly after the forwarded request. */
  predicate Enabled(s: State, step: Step) {
    match step
    case Start(info) => PlainNames(info.header)
    case Write(t, entry) =>
      && t < |s.traces| && !s.traces[t].done && PlainNames(EntryHeader(entry))
      && (entry.ForwardReply? ==> JustForwarded(s.traces[t].entries))
    case Flush(t) => t < |s.traces| && !s.traces[t].done
  }

  predicate JustForwarded(entries: seq<Entry>) {
    entries != [] && entries[|entries| - 1].Forwarding?
  }

  ghost function Next(maxBody: int, s: State, step: Step): State {
    if !Enabled(s, step) then s
    else match step
      case Start(info) =>
        s.(started := s.started + 1, traces := s.traces + [Trace(Number(s.started), info, [], false)])
      case Write(t, entry) => s.(traces := s.traces[t := s.traces[t].(entries := s.traces[t].entries + [entry])])
      case Flush(t) =>
        s.(traces := s.traces[t := s.traces[t].(done := true)], order := s.order + [t],
           output := s.output + Render(Items(maxBody, s.traces[t])))
  }

  ghost function Exec(maxBody: int, steps: seq<Step>): State {
    if steps == [] then INIT else Next(maxBody, Exec(maxBody, steps[..|steps| - 1]), steps[|steps| - 1])
  }

  // --------------------------------------------------------------------- blocks

  predicate IsRequestLine(item: Item) {
    item.Info? && StartsWith(item.text, REQUEST)
  }

  /** What an exchange flushes: a request line, then legs and other lines that can be told apart. */
  ghost predicate Block(items: seq<Item>) {
    && items != [] && IsRequestLine(items[0])
    && (forall i :: 0 < i < |items| ==> !IsRequestLine(items[i]))
    && Readable(items)
  }

  function LastKind(items: seq<Item>): Option<Kind> {
    if items != [] && items[|items| - 1].Leg? then Some(items[|items| - 1].kind) else None
  }

  /** An item that can follow a request in a block. */
  predicate Follower(item: Item) {
    && !IsRequestLine(item) && (item.Info? ==> item.text != MARKER)
    && (item.Leg? ==> forall f: Field :: f in item.fields ==> ':' !in f.0)
  }

  lemma RequestLines(id: nat, info: RequestInfo)
    ensures IsRequestLine(Info(RequestText(id, info))) && RequestText(id, info) != MARKER
  {
    assert RequestText(id, info)[..|REQUEST|] == REQUEST;
    assert RequestText(id, info)[0] == 'R';
  }

  lemma RequestIsBlock(maxBody: int, id: nat, info: RequestInfo)
    requires PlainNames(info.header)
    ensures Block(RequestItems(maxBody, id, info))
  {
    RequestLines(id, info);
    FieldNamesArePlain(info.host, info.header);
  }

  lemma EntriesFollow(maxBody: int, id: nat, e: Entry)
    requires PlainNames(EntryHeader(e))
    ensures forall i :: 0 <= i < |EntryItems(maxBody, id, e)| ==> Follower(EntryItems(maxBody, id, e)[i])
  {
    match e
    case Forwarding(target, _, host, h, _) =>
      assert ("Forwarding to " + target)[0] == 'F';
      FieldNamesArePlain(host, h);
    case ForwardReply(_, _, h, _) => FieldNamesArePlain("", h);
    case ForwardFailure(error) => assert ("Forward error: " + error)[0] == 'F';
    case Responding(_, code, _, ms, h, _) =>
      assert ResponseText(id, code, ms)[..9] == "Response ";
      FieldNamesArePlain("", h);
    case Upgrade => assert "WebSocket upgrade"[0] == 'W';
  }

  /** What an entry appends never starts with a leg, except for a remote response. */
  lemma EntryShape(maxBody: int, id: nat, e: Entry)
    ensures var items := EntryItems(maxBody, id, e);
            && items != []
            && (items[0].Leg? <==> e.ForwardReply?) && (e.ForwardReply? ==> items[0].kind == UpstreamResponse)
            && (forall i :: 0 <= i < |items| - 1 ==> !items[i].Leg?)
            && (LastKind(items) == Some(UpstreamRequest) <==> e.Forwarding?)
  {
  }

  lemma AppendKeepsBlock(items: seq<Item>, more: seq<Item>)
    requires Block(items)
    requires forall i :: 0 <= i < |more| ==> Follower(more[i])
    requires forall i :: 0 <= i < |more| - 1 ==> !more[i].Leg?
    requires more != [] && more[0].Leg? ==> LastKind(items) != Some(more[0].kind)
    ensures Block(items + more)
  {
    var all := items + more;
    forall j | |items| <= j < |all| - 1 ensures !all[j].Leg? {
      assert all[j] == more[j - |items|];
    }
    assert Readable(all);
  }

  /** After its last entry, an exchange ends in a request leg exactly when it was just forwarded. */
  lemma LastItem(maxBody: int, t: Trace)
    ensures JustForwarded(t.entries) ==> LastKind(Items(maxBody, t)) == Some(UpstreamRequest)
  {
    if t.entries != [] {
      EntryShape(maxBody, t.id, t.entries[|t.entries| - 1]);
    }
  }

  lemma ItemsSnoc(maxBody: int, t: Trace, e: Entry)
    ensures Items(maxBody, t.(entries := t.entries + [e])) == Items(maxBody, t) + EntryItems(maxBody, t.id, e)
  {
    assert (t.entries + [e])[..|t.entries|] == t.entries;
  }

  lemma EntriesItemsSnoc(maxBody: int, id: nat, entries: seq<Entry>, e: Entry)
    ensures EntriesItems(maxBody, id, entries + [e]) == EntriesItems(maxBody, id, entries) + EntryItems(maxBody, id, e)
  {
    assert (entries + [e])[..|entries|] == entries;
  }

  lemma ItemsOfSnoc(maxBody: int, id: nat, info: RequestInfo, entries: seq<Entry>, e: Entry)
    ensures Items(maxBody, Trace(id, info, entries + [e], true))
         == RequestItems(maxBody, id, info) + EntriesItems(maxBody, id, entries) + EntryItems(maxBody, id, e)
  {
    EntriesItemsSnoc(maxBody, id, entries, e);
    Regroup(RequestItems(maxBody, id, info), EntriesItems(maxBody, id, entries), EntryItems(maxBody, id, e));
  }

  lemma EntriesItemsOfOne(maxBody: int, id: nat, e: Entry)
    ensures EntriesItems(maxBody, id, [e]) == EntryItems(maxBody, id, e)
  {
    EntriesItemsSnoc(maxBody, id, [], e);
    assert [] + [e] == [e];
    assert EntriesItems(maxBody, id, []) + EntryItems(maxBody, id, e) == EntryItems(maxBody, id, e);
  }

  lemma EntriesItemsOfTwo(maxBody: int, id: nat, a: Entry, b: Entry)
    ensures EntriesItems(maxBody, id, [a, b]) == EntryItems(maxBody, id, a) + EntryItems(maxBody, id, b)
  {
    EntriesItemsOfOne(maxBody, id, a);
    EntriesItemsSnoc(maxBody, id, [a], b);
    assert [a] + [b] == [a, b];
  }

  /** Every writer keeps an exchange a block, whatever it prints. */
  lemma WriteKeepsBlock(maxBody: int, t: Trace, e: Entry)
    requires Block(Items(maxBody, t)) && PlainNames(EntryHeader(e))
    requires e.ForwardReply? ==> JustForwarded(t.entries)
    ensures Block(Items(maxBody, t.(entries := t.entries + [e])))
  {
    ItemsSnoc(maxBody, t, e);
    LastItem(maxBody, t);
    EntriesFollow(maxBody, t.id, e);
    EntryShape(maxBody, t.id, e);
    AppendKeepsBlock(Items(maxBody, t), EntryItems(maxBody, t.id, e));
  }

  /** Remote responses are written directly after forwarded requests. */
  predicate RepliesFollow(entries: seq<Entry>) {
    forall i :: 0 <= i < |entries| && entries[i].ForwardReply? ==> JustForwarded(entries[..i])
  }

  lemma RepliesFollowPrefix(entries: seq<Entry>)
    requires RepliesFollow(entries) && PlainEntries(entries) && entries != []
    ensures var n := |entries| - 1;
            && RepliesFollow(entries[..n]) && PlainEntries(entries[..n])
            && (entries[n].ForwardReply? ==> JustForwarded(entries[..n]))
  {
    var before := entries[..|entries| - 1];
    forall i | 0 <= i < |before| && before[i].ForwardReply? ensures JustForwarded(before[..i]) {
      assert before[..i] == entries[..i];
    }
  }

  /** What an exchange writes is a block, whatever it prints. */
  lemma {:induction false} TraceIsBlock(maxBody: int, t: Trace)
    requires PlainTrace(t) && RepliesFollow(t.entries)
    ensures Block(Items(maxBody, t))
    decreases |t.entries|
  {
    if t.entries == [] {
      RequestIsBlock(maxBody, t.id, t.info);
      assert Items(maxBody, t) == RequestItems(maxBody, t.id, t.info);
    } else {
      var n := |t.entries| - 1;
      var before := t.(entries := t.entries[..n]);
      RepliesFollowPrefix(t.entries);
      TraceIsBlock(maxBody, before);
      WriteKeepsBlock(maxBody, before, t.entries[n]);
      assert before.entries + [t.entries[n]] == t.entries;
      assert before.(entries := before.entries + [t.entries[n]]) == t;
    }
  }

  /** The text of one exchange reads back exactly if none of its texts, bodies apart, holds a newline. */
  lemma TraceReadsBackIff(maxBody: int, t: Trace)
    requires PlainTrace(t) && RepliesFollow(t.entries)
    ensures Parse(Render(Items(maxBody, t))) == Some(Items(maxBody, t)) <==> OneLineTrace(t)
  {
    TraceIsBlock(maxBody, t);
    TraceIsOneLineIff(maxBody, t);
    RenderRoundTripIff(Items(maxBody, t));
  }

  /** The items before the next request line. */
  function NonRequests(items: seq<Item>): (n: nat)
    ensures n <= |items|
  {
    if items == [] || IsRequestLine(items[0]) then 0 else 1 + NonRequests(items[1..])
  }

  /** Cut a list of items before every request line. */
  function SplitBlocks(items: seq<Item>): seq<seq<Item>>
    decreases |items|
  {
    if items == [] then []
    else
      var n := 1 + NonRequests(items[1..]);
      [items[..n]] + SplitBlocks(items[n..])
  }

  lemma {:induction false} NonRequestsOf(a: seq<Item>, b: seq<Item>)
    requires forall i :: 0 <= i < |a| ==> !IsRequestLine(a[i])
    requires b == [] || IsRequestLine(b[0])
    ensures NonRequests(a + b) == |a|
  {
    if a == [] {
      assert a + b == b;
    } else {
      assert (a + b)[1..] == a[1..] + b;
      NonRequestsOf(a[1..], b);
    }
  }

  ghost predicate Blocks(blocks: seq<seq<Item>>) {
    forall i :: 0 <= i < |blocks| ==> Block(blocks[i])
  }

  lemma FirstOfConcat(blocks: seq<seq<Item>>)
    requires Blocks(blocks)
    ensures Concat(blocks) == [] || IsRequestLine(Concat(blocks)[0])
  {
  }

  lemma SplitFirst(block: seq<Item>, rest: seq<Item>)
    requires Block(block) && (rest == [] || IsRequestLine(rest[0]))
    ensures SplitBlocks(block + rest) == [block] + SplitBlocks(rest)
  {
    var all := block + rest;
    assert all[1..] == block[1..] + rest;
    NonRequestsOf(block[1..], rest);
    assert all[..|block|] == block && all[|block|..] == rest;
  }

  /** Concatenated blocks are cut apart again. */
  lemma {:induction false} SplitConcatenated(blocks: seq<seq<Item>>)
    requires Blocks(blocks)
    ensures SplitBlocks(Concat(blocks)) == blocks
  {
    if blocks != [] {
      FirstOfConcat(blocks[1..]);
      SplitConcatenated(blocks[1..]);
      SplitFirst(blocks[0], Concat(blocks[1..]));
      assert blocks == [blocks[0]] + blocks[1..];
    }
  }

  /** Concatenated blocks are readable as one trace. */
  lemma {:induction false} ConcatenatedIsReadable(blocks: seq<seq<Item>>)
    requires Blocks(blocks)
    ensures Readable(Concat(blocks))
  {
    if blocks != [] {
      var block, rest := blocks[0], Concat(blocks[1..]);
      FirstOfConcat(blocks[1..]);
      ConcatenatedIsReadable(blocks[1..]);
      var all: seq<Item> := block + rest;
      assert Concat(blocks) == all;
      forall i | 0 < i < |all| && all[i - 1].Leg? && all[i].Leg? ensures all[i - 1].kind != all[i].kind {
        assert i > |block| ==> rest[i - |block| - 1].kind != rest[i - |block|].kind;
      }
    }
  }

  /** Concatenated blocks fit on lines exactly if each does. */
  lemma {:induction false} ConcatIsOneLineIff(blocks: seq<seq<Item>>)
    ensures AllOneLine(Concat(blocks)) <==> forall i :: 0 <= i < |blocks| ==> AllOneLine(blocks[i])
  {
    if blocks != [] {
      ConcatIsOneLineIff(blocks[1..]);
      AllOneLineConcat(blocks[0], Concat(blocks[1..]));
      assert forall i :: 0 < i < |blocks| ==> blocks[i] == blocks[1..][i - 1];
    }
  }

  // ----------------------------------------------------------------- invariant

  ghost function FlushedBlocks(maxBody: int, s: State): seq<seq<Item>>
    requires forall t :: t in s.order ==> t < |s.traces|
  {
    seq(|s.order|, i requires 0 <= i < |s.order| => assert s.order[i] in s.order; Items(maxBody, s.traces[s.order[i]]))
  }

  predicate PlainTrace(t: Trace) {
    PlainNames(t.info.header) && PlainEntries(t.entries)
  }

  ghost predicate GoodTrace(maxBody: int, t: Trace, id: nat) {
    t.id == id && PlainTrace(t) && Block(Items(maxBody, t))
  }

  ghost predicate GoodTraces(maxBody: int, traces: seq<Trace>) {
    forall t :: 0 <= t < |traces| ==> GoodTrace(maxBody, traces[t], Number(t))
  }

  ghost predicate TracesAreBlocks(maxBody: int, s: State) {
    s.started == |s.traces| && GoodTraces(maxBody, s.traces)
  }

  ghost predicate FlushedOnce(s: State) {
    Distinct(s.order) && forall t: nat :: t in s.order <==> t < |s.traces| && s.traces[t].done
  }

  lemma StartIsGood(maxBody: int, id: nat, info: RequestInfo)
    requires PlainNames(info.header)
    ensures GoodTrace(maxBody, Trace(id, info, [], false), id)
  {
    var t := Trace(id, info, [], false);
    RequestIsBlock(maxBody, id, info);
    assert Items(maxBody, t) == RequestItems(maxBody, id, info) + [];
    assert Items(maxBody, t) == RequestItems(maxBody, id, info);
  }

  lemma WriteIsGood(maxBody: int, t: Trace, e: Entry)
    requires GoodTrace(maxBody, t, t.id) && PlainNames(EntryHeader(e)) && (e.ForwardReply? ==> JustForwarded(t.entries))
    ensures GoodTrace(maxBody, t.(entries := t.entries + [e]), t.id)
  {
    WriteKeepsBlock(maxBody, t, e);
  }

  lemma FlushIsGood(maxBody: int, t: Trace)
    requires GoodTrace(maxBody, t, t.id)
    ensures GoodTrace(maxBody, t.(done := true), t.id)
  {
    assert Items(maxBody, t.(done := true)) == Items(maxBody, t);
  }

  lemma UpdateIsGood(maxBody: int, traces: seq<Trace>, i: nat, t: Trace)
    requires GoodTraces(maxBody, traces) && i < |traces| && GoodTrace(maxBody, t, traces[i].id)
    ensures GoodTraces(maxBody, traces[i := t])
  {
    assert GoodTrace(maxBody, traces[i], Number(i));
  }

  lemma TracesStep(maxBody: int, s: State, step: Step)
    requires TracesAreBlocks(maxBody, s)
    ensures TracesAreBlocks(maxBody, Next(maxBody, s, step))
  {
    if Enabled(s, step) {
      match step
      case Start(info) => StartIsGood(maxBody, Number(s.started), info);
      case Write(i, entry) =>
        assert GoodTrace(maxBody, s.traces[i], Number(i));
        WriteIsGood(maxBody, s.traces[i], entry);
        UpdateIsGood(maxBody, s.traces, i, s.traces[i].(entries := s.traces[i].entries + [entry]));
      case Flush(i) =>
        assert GoodTrace(maxBody, s.traces[i], Number(i));
        FlushIsGood(maxBody, s.traces[i]);
        UpdateIsGood(maxBody, s.traces, i, s.traces[i].(done := true));
    }
  }

  lemma FlushedOnceStep(maxBody: int, s: State, step: Step)
    requires FlushedOnce(s)
    ensures FlushedOnce(Next(maxBody, s, step))
  {
  }

  lemma SameFlushed(maxBody: int, s: State, s': State)
    requires FlushedOnce(s) && FlushedOnce(s') && s'.order == s.order
    requires forall t :: t in s.order ==> Items(maxBody, s'.traces[t]) == Items(maxBody, s.traces[t])
    ensures FlushedBlocks(maxBody, s') == FlushedBlocks(maxBody, s)
  {
    forall i | 0 <= i < |s.order| ensures FlushedBlocks(maxBody, s')[i] == FlushedBlocks(maxBody, s)[i] {
      assert s.order[i] in s.order;
    }
  }

  lemma OneMoreFlushed(maxBody: int, s: State, s': State, t: nat)
    requires FlushedOnce(s) && FlushedOnce(s') && s'.order == s.order + [t]
    requires t < |s.traces| == |s'.traces| && Items(maxBody, s'.traces[t]) == Items(maxBody, s.traces[t])
    requires forall u :: u in s.order ==> Items(maxBody, s'.traces[u]) == Items(maxBody, s.traces[u])
    ensures FlushedBlocks(maxBody, s') == FlushedBlocks(maxBody, s) + [Items(maxBody, s.traces[t])]
  {
    forall i | 0 <= i < |s.order| ensures FlushedBlocks(maxBody, s')[i] == FlushedBlocks(maxBody, s)[i] {
      assert s.order[i] in s.order;
    }
  }

  lemma OutputStep(maxBody: int, s: State, step: Step)
    requires FlushedOnce(s) && FlushedOnce(Next(maxBody, s, step))
    requires s.output == Render(Concat(FlushedBlocks(maxBody, s)))
    ensures Next(maxBody, s, step).output == Render(Concat(FlushedBlocks(maxBody, Next(maxBody, s, step))))
  {
    var s' := Next(maxBody, s, step);
    if Enabled(s, step) {
      if step.Flush? {
        OneMoreFlushed(maxBody, s, s', step.trace);
        AppendBlock(FlushedBlocks(maxBody, s), Items(maxBody, s.traces[step.trace]));
      } else {
        SameFlushed(maxBody, s, s');
      }
    }
  }

  lemma AppendBlock(blocks: seq<seq<Item>>, block: seq<Item>)
    ensures Render(Concat(blocks + [block])) == Render(Concat(blocks)) + Render(block)
  {
    ConcatAppend(blocks, [block]);
    assert Concat([block]) == block by {
      assert [block][1..] == [] && block + [] == block;
    }
    RenderConcat(Concat(blocks), block);
  }

  lemma {:induction false} ReachableInv(maxBody: int, steps: seq<Step>)
    ensures var s := Exec(maxBody, steps);
            && TracesAreBlocks(maxBody, s) && FlushedOnce(s)
            && s.output == Render(Concat(FlushedBlocks(maxBody, s)))
  {
    if steps == [] {
      assert FlushedBlocks(maxBody, INIT) == [];
    } else {
      var before, step := Exec(maxBody, steps[..|steps| - 1]), steps[|steps| - 1];
      ReachableInv(maxBody, steps[..|steps| - 1]);
      TracesStep(maxBody, before, step);
      FlushedOnceStep(maxBody, before, step);
      OutputStep(maxBody, before, step);
    }
  }

  lemma FlushedAreBlocks(maxBody: int, s: State)
    requires TracesAreBlocks(maxBody, s) && FlushedOnce(s)
    ensures Blocks(FlushedBlocks(maxBody, s))
  {
    forall i | 0 <= i < |s.order| ensures Block(FlushedBlocks(maxBody, s)[i]) {
      assert s.order[i] in s.order;
      assert GoodTrace(maxBody, s.traces[s.order[i]], Number(s.order[i]));
    }
  }

  // ------------------------------------------------------------- one-line traces

  ghost predicate OneLineEntries(entries: seq<Entry>) {
    forall i :: 0 <= i < |entries| ==> OneLineEntry(entries[i])
  }

  predicate PlainEntries(entries: seq<Entry>) {
    forall i :: 0 <= i < |entries| ==> PlainNames(EntryHeader(entries[i]))
  }

  /** None of the texts that an exchange was given holds a newline, bodies apart. */
  ghost predicate OneLineTrace(t: Trace) {
    OneLineRequest(t.info) && OneLineEntries(t.entries)
  }

  lemma OneLineEntriesSnoc(entries: seq<Entry>)
    requires entries != []
    ensures var n := |entries| - 1;
            OneLineEntries(entries) <==> OneLineEntries(entries[..n]) && OneLineEntry(entries[n])
  {
    var n := |entries| - 1;
    assert forall i :: 0 <= i < n ==> entries[..n][i] == entries[i];
  }

  lemma {:induction false} EntriesAreOneLineIff(maxBody: int, id: nat, entries: seq<Entry>)
    requires PlainEntries(entries)
    ensures AllOneLine(EntriesItems(maxBody, id, entries)) <==> OneLineEntries(entries)
  {
    if entries != [] {
      var n := |entries| - 1;
      EntriesAreOneLineIff(maxBody, id, entries[..n]);
      EntryIsOneLineIff(maxBody, id, entries[n]);
      AllOneLineConcat(EntriesItems(maxBody, id, entries[..n]), EntryItems(maxBody, id, entries[n]));
      OneLineEntriesSnoc(entries);
    }
  }

  lemma TraceIsOneLineIff(maxBody: int, t: Trace)
    requires PlainTrace(t)
    ensures AllOneLine(Items(maxBody, t)) <==> OneLineTrace(t)
  {
    RequestIsOneLineIff(maxBody, t.id, t.info);
    EntriesAreOneLineIff(maxBody, t.id, t.entries);
    AllOneLineConcat(RequestItems(maxBody, t.id, t.info), EntriesItems(maxBody, t.id, t.entries));
  }

  /** Every flushed exchange was given texts without newlines. */
  ghost predicate FlushedAreOneLine(s: State)
    requires forall t :: t in s.order ==> t < |s.traces|
  {
    forall t :: t in s.order ==> OneLineTrace(s.traces[t])
  }

  lemma FlushedAreOneLineIff(maxBody: int, s: State)
    requires TracesAreBlocks(maxBody, s) && FlushedOnce(s)
    ensures AllOneLine(Concat(FlushedBlocks(maxBody, s))) <==> FlushedAreOneLine(s)
  {
    var blocks := FlushedBlocks(maxBody, s);
    ConcatIsOneLineIff(blocks);
    forall i | 0 <= i < |s.order| ensures AllOneLine(blocks[i]) <==> OneLineTrace(s.traces[s.order[i]]) {
      assert s.order[i] in s.order;
      assert GoodTrace(maxBody, s.traces[s.order[i]], Number(s.order[i]));
      TraceIsOneLineIff(maxBody, s.traces[s.order[i]]);
    }
    if AllOneLine(Concat(blocks)) {
      forall t | t in s.order ensures OneLineTrace(s.traces[t]) {
        var i :| 0 <= i < |s.order| && s.order[i] == t;
        assert AllOneLine(blocks[i]);
      }
    }
    if FlushedAreOneLine(s) {
      forall i | 0 <= i < |s.order| ensures AllOneLine(blocks[i]) {
        assert s.order[i] in s.order;
      }
    }
  }

  // -------------------------------------------------------------- main results

  /**
   * However exchanges interleave and whatever they print, the output is the
   * flushed exchanges, whole, in flush order, each exactly once; as items they
   * fall apart at their request lines.
   */
  lemma OutputIsFlushedExchanges(maxBody: int, steps: seq<Step>)
    ensures var s := Exec(maxBody, steps);
            && (forall t :: t in s.order ==> t < |s.traces|)
            && Distinct(s.order) && (forall t :: 0 <= t < |s.traces| ==> (s.traces[t].done <==> t in s.order))
            && s.output == Render(Concat(FlushedBlocks(maxBody, s)))
            && SplitBlocks(Concat(FlushedBlocks(maxBody, s))) == FlushedBlocks(maxBody, s)
  {
    var s := Exec(maxBody, steps);
    ReachableInv(maxBody, steps);
    FlushedAreBlocks(maxBody, s);
    SplitConcatenated(FlushedBlocks(maxBody, s));
  }

  /**
   * The output reads back as those exchanges exactly if none of the texts they
   * were given holds a newline, bodies apart.
   */
  lemma OutputRecoversExchangesIff(maxBody: int, steps: seq<Step>)
    ensures var s := Exec(maxBody, steps);
            && (forall t :: t in s.order ==> t < |s.traces|)
            && (Parse(s.output) == Some(Concat(FlushedBlocks(maxBody, s))) <==> FlushedAreOneLine(s))
  {
    var s := Exec(maxBody, steps);
    ReachableInv(maxBody, steps);
    FlushedAreBlocks(maxBody, s);
    ConcatenatedIsReadable(FlushedBlocks(maxBody, s));
    RenderRoundTripIff(Concat(FlushedBlocks(maxBody, s)));
    FlushedAreOneLineIff(maxBody, s);
  }

  /**
   * End to end: from the output of such a run, the leg that any flushed
   * exchange wrote gives back its first line, the host and header values it was
   * given, its body up to maxBody and line-end carriage returns, and whether
   * the body was cut.
   */
  lemma OutputRecoversSection(maxBody: int, steps: seq<Step>, n: nat, j: nat,
                              k: Kind, first: string, host: string, h: Header, body: string, name: string)
    requires var s := Exec(maxBody, steps);
             n < |s.order| && s.order[n] < |s.traces| && (forall t :: t in s.order ==> t < |s.traces|)
             && FlushedAreOneLine(s)
             && j < |Items(maxBody, s.traces[s.order[n]])|
             && Items(maxBody, s.traces[s.order[n]])[j] == Section(k, first, host, h, body, maxBody)
    ensures var parsed := Parse(Exec(maxBody, steps).output);
            && parsed.Some? && n < |SplitBlocks(parsed.value)| && j < |SplitBlocks(parsed.value)[n]|
            && var leg := SplitBlocks(parsed.value)[n][j];
               && leg.Leg? && leg.kind == k && leg.first == first
               && ValuesNamed(leg.fields, name) == HostValues(host, name) + Values(h, name)
               && Text.Join(leg.body, "\n") == DropLineCRs(Shown(body, maxBody))
               && (leg.truncated <==> 0 < maxBody < |body|)
  {
    OutputIsFlushedExchanges(maxBody, steps);
    OutputRecoversExchangesIff(maxBody, steps);
    LegFieldsRecoverHeader(host, h, name);
    BodyIsRecovered(Shown(body, maxBody));
  }

  lemma NumbersAreDistinctIff(n: nat)
    ensures (forall t: nat, u: nat :: t < u < n ==> Number(t) != Number(u)) <==> n <= TWO_64
  {
    if n > TWO_64 {
      assert Number(TWO_64) == Number(0);
    } else {
      forall t: nat, u: nat | t < u < n ensures Number(t) != Number(u) {
        assert Number(t) == t + 1;
        assert Number(u) == if u + 1 < TWO_64 then u + 1 else 0;
      }
    }
  }

  /** Exchange numbers are pairwise distinct exactly until the 64-bit counter has gone around. */
  lemma IdsAreDistinctIff(maxBody: int, steps: seq<Step>)
    ensures var s := Exec(maxBody, steps);
            (forall t: nat, u: nat :: t < u < |s.traces| ==> s.traces[t].id != s.traces[u].id) <==> |s.traces| <= TWO_64
  {
    var traces := Exec(maxBody, steps).traces;
    ReachableInv(maxBody, steps);
    forall t: nat | t < |traces| ensures traces[t].id == Number(t) {
      assert GoodTrace(maxBody, traces[t], Number(t));
    }
    NumbersAreDistinctIff(|traces|);
  }

  /** The first exchange is number one, and each next one counts on, until the counter wraps to zero. */
  lemma NumberIs(t: nat)
    requires t < 0x1_0000_0000_0000_0000
    ensures Number(t) == if t == 0xffff_ffff_ffff_ffff then 0 else t + 1
  {
  }
}
