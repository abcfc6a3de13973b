/**
 * The independently computed views of a body: the echoed request body, the
 * request and response bodies of the trace, and the body relayed upstream.
 */
module Bodies {
  import opened Common
  import opened Int64
  import opened TraceLegs

  /** What is seen of a body: its bytes, and whether more followed. */
  datatype View = View(bytes: string, truncated: bool)

  /** The view that MAX_BODY_SIZE promises. */
  function Promised(full: string, max: nat): View {
    View(Take(full, max), |full| > max)
  }

  /** capBody. */
  function CapBody(body: string, limit: int): View
    requires limit >= 0
  {
    if |body| > limit then View(body[..limit], true) else View(body, false)
  }

  /** How the verbose printer shows a body. */
  function Dumped(body: string, maxBody: int): View {
    View(Shown(body, maxBody), Truncates(body, maxBody))
  }

  const FORWARD_LIMIT: int := 0x100_0000_0000

  /** bodyLimit: one byte beyond the maximum, in int64, or the forwarding limit. */
  function BodyLimit(forwarding: bool, max: int): int {
    if forwarding then FORWARD_LIMIT else Wrap(max + 1)
  }

  /** dumpCap: the recorder's bound. */
  function DumpCap(verbose: bool, max: int): int {
    if verbose then Wrap(max + 1) else 0
  }

  /** The first `limit` bytes, none for a limit below one: io.ReadAll of an io.LimitReader, and the recorder's copy. */
  function ReadLimited(full: string, limit: int): string {
    if limit <= 0 then "" else Take(full, limit)
  }

  /** Reading up to a limit leaves both views as promised exactly if it cuts nothing or exceeds the maximum. */
  lemma LimitedViewsAgreeIff(full: string, limit: int, max: nat)
    requires max > 0
    ensures CapBody(ReadLimited(full, limit), max) == Promised(full, max)
            <==> limit > max || ReadLimited(full, limit) == full
    ensures Dumped(ReadLimited(full, limit), max) == CapBody(ReadLimited(full, limit), max)
  {
    var body := ReadLimited(full, limit);
    assert body != full ==> |body| < |full|;
    assert limit > max && |full| > max ==> body[..max] == full[..max];
  }

  lemma WrapNext(max: int)
    requires 0 < max <= MAX_INT64
    ensures Wrap(max + 1) == if max == MAX_INT64 then -TWO_63 else max + 1
  {
  }

  /** The echoed body and the dumped request body are the promised view of this request body. */
  predicate RequestViewsAgree(full: string, forwarding: bool, max: nat)
    requires max > 0
  {
    var body := ReadLimited(full, BodyLimit(forwarding, max));
    CapBody(body, max) == Promised(full, max) && Dumped(body, max) == Promised(full, max)
  }

  /**
   * Both views of a request body show its first `max` bytes and flag a longer
   * one, exactly if max + 1 fits int64 or the body is empty; when forwarding,
   * exactly if the maximum or the body stays within the forwarding limit.
   */
  lemma RequestViewsAgreeIff(full: string, forwarding: bool, max: nat)
    requires 0 < max <= MAX_INT64
    ensures RequestViewsAgree(full, forwarding, max)
            <==> if forwarding then max < 1_099_511_627_776 || |full| <= 1_099_511_627_776
                 else max < 9_223_372_036_854_775_807 || full == ""
  {
    WrapNext(max);
    LimitedViewsAgreeIff(full, BodyLimit(forwarding, max), max);
  }

  function Filler(n: nat): (s: string)
    ensures |s| == n
  {
    seq(n, _ => 'x')
  }

  ghost predicate RequestViewsAlwaysAgree(forwarding: bool, max: nat)
    requires max > 0
  {
    forall full: string :: RequestViewsAgree(full, forwarding, max)
  }

  /** So they agree for every body exactly below the largest int64, or below the forwarding limit. */
  lemma RequestViewsAlwaysAgreeIff(forwarding: bool, max: nat)
    requires 0 < max <= MAX_INT64
    ensures RequestViewsAlwaysAgree(forwarding, max) <==> if forwarding then max < FORWARD_LIMIT else max < MAX_INT64
  {
    forall full: string {
      RequestViewsAgreeIff(full, forwarding, max);
    }
    var cut := Filler(if forwarding then FORWARD_LIMIT + 1 else 1);
    assert |cut| > 0;
  }

  /** The body relayed upstream is the request body exactly up to the forwarding limit. */
  lemma RelayedIsWholeIff(full: string, max: int)
    ensures ReadLimited(full, BodyLimit(true, max)) == full <==> |full| <= 1_099_511_627_776
  {
  }

  /** The dumped response body, which the recorder bounds at max + 1, is as promised exactly under that condition. */
  lemma ResponseViewAgreesIff(full: string, max: nat)
    requires 0 < max <= MAX_INT64
    ensures Dumped(ReadLimited(full, DumpCap(true, max)), max) == Promised(full, max) <==> max < MAX_INT64 || full == ""
  {
    WrapNext(max);
    LimitedViewsAgreeIff(full, DumpCap(true, max), max);
  }
}
