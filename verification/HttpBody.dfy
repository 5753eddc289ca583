/** Reading a response body under the `--max-body-bytes` cap. */
module HttpBody {
  import opened Collections
  import opened DnsName

  const BODY_SNIPPET_BYTES := 1024

  function Least(a: nat, b: nat): nat { if a <= b then a else b }

  function First(n: nat, bytes: Bytes): Bytes { bytes[..Least(n, |bytes|)] }

  /** What a reader holds: the snippet, the whole copy when one was asked for, and the bytes read. */
  datatype Body = Body(snippet: Bytes, full: Option<Bytes>, bytesRead: nat)

  /** One chunk: cut to what the cap leaves, then added to the copy and, as far as it goes, the snippet. */
  function Push(b: Body, cap: nat, data: Bytes): Body {
    var bounded := First(Spare(cap, b.bytesRead), data);
    Body(b.snippet + First(Spare(BODY_SNIPPET_BYTES, |b.snippet|), bounded),
         if b.full.Some? then Some(b.full.value + bounded) else None,
         b.bytesRead + |bounded|)
  }

  function Spare(cap: nat, used: nat): nat { if cap >= used then cap - used else 0 }

  /** What a reader should hold after a stream of `total` bytes, however it was cut into chunks. */
  function BodyOf(total: Bytes, cap: nat, retain: bool): Body {
    var kept := First(cap, total);
    Body(First(BODY_SNIPPET_BYTES, kept), if retain then Some(kept) else None, |kept|)
  }

  class Accumulator {
    var snippet: Bytes
    var fullBody: Option<Bytes>
    var bytesRead: nat

    constructor (retain: bool)
      ensures Held() == BodyOf([], 0, retain)
    {
      snippet, fullBody, bytesRead := [], if retain then Some([]) else None, 0;
    }

    function Held(): Body
      reads this
    {
      Body(snippet, fullBody, bytesRead)
    }

    method PushBodySnippet(data: Bytes)
      modifies this`snippet
      ensures snippet == old(snippet) + First(Spare(BODY_SNIPPET_BYTES, |old(snippet)|), data)
    {
      if |snippet| >= BODY_SNIPPET_BYTES {
        return;
      }
      var take := Least(BODY_SNIPPET_BYTES - |snippet|, |data|);
      snippet := snippet + data[..take];
    }

    method PushBoundedBody(cap: nat, data: Bytes) returns (capped: bool)
      modifies this
      ensures Held() == Push(old(Held()), cap, data)
      ensures capped <==> bytesRead >= cap
    {
      var remaining := if cap >= bytesRead then cap - bytesRead else 0;
      var take := Least(|data|, remaining);
      var bounded := data[..take];
      PushBodySnippet(bounded);
      bytesRead := bytesRead + take;
      if fullBody.Some? {
        fullBody := Some(fullBody.value + bounded);
      }
      capped := bytesRead >= cap;
    }
  }

  lemma FirstAppend(n: nat, a: Bytes, b: Bytes)
    ensures First(n, a + b) == First(n, a) + First(Spare(n, |First(n, a)|), b)
  {
  }

  /** Streaming one chunk more: from what `before` should leave to what `before + data` should leave. */
  lemma PushKeepsBody(before: Bytes, data: Bytes, cap: nat, retain: bool)
    ensures Push(BodyOf(before, cap, retain), cap, data) == BodyOf(before + data, cap, retain)
  {
    var kept := First(cap, before);
    FirstAppend(cap, before, data);
    FirstAppend(BODY_SNIPPET_BYTES, kept, First(Spare(cap, |kept|), data));
  }

  /** All chunks pushed one after the other. */
  function PushAll(b: Body, cap: nat, chunks: seq<Bytes>): Body
    decreases |chunks|
  {
    if chunks == [] then b else PushAll(Push(b, cap, chunks[0]), cap, chunks[1..])
  }

  lemma {:induction false} PushAllKeepsBody(before: Bytes, chunks: seq<Bytes>, cap: nat, retain: bool)
    ensures PushAll(BodyOf(before, cap, retain), cap, chunks) == BodyOf(before + Flatten(chunks), cap, retain)
    decreases |chunks|
  {
    hide BodyOf, Push;
    if chunks == [] {
      assert before + [] == before;
    } else {
      PushKeepsBody(before, chunks[0], cap, retain);
      PushAllKeepsBody(before + chunks[0], chunks[1..], cap, retain);
      assert before + chunks[0] + Flatten(chunks[1..]) == before + Flatten(chunks);
    }
  }

  /** However a body is cut into chunks, pushing them all from the start leaves the prefix up to the cap,
      its first 1024 bytes, and its length. */
  lemma AnyChunking(chunks: seq<Bytes>, cap: nat, retain: bool)
    ensures PushAll(BodyOf([], cap, retain), cap, chunks) == BodyOf(Flatten(chunks), cap, retain)
  {
    hide BodyOf, Flatten, PushAll;
    PushAllKeepsBody([], chunks, cap, retain);
    assert [] + Flatten(chunks) == Flatten(chunks);
  }

  /** Pushing on after the cap was reported changes nothing, from any state. */
  lemma PushAfterCap(b: Body, cap: nat, data: Bytes)
    requires b.bytesRead >= cap
    ensures Push(b, cap, data) == b
  {
    assert b.snippet + [] == b.snippet;
    assert b.full.Some? ==> b.full.value + [] == b.full.value;
  }

  // ----- the read loop -----

  /** How the stream goes on after its chunks: it ends, it stalls past the deadline, or it fails. */
  datatype Ending = Complete | Stalled | Broken

  datatype BodyReport =
    | Failure
    | Report(bodyBytes: Option<nat>, capped: bool, body: Body, truncated: bool)

  /** Reading stops at the first chunk that reaches the cap; only then is what follows irrelevant. */
  method ReadBody(chunks: seq<Bytes>, ending: Ending, cap: nat, retain: bool) returns (r: BodyReport)
    ensures r == Expected(chunks, ending, cap, retain)
  {
    hide Flatten, BodyOf, Push;
    var acc := new Accumulator(retain);
    NothingRead(cap, retain);
    var ended, capped := false, false;
    var i := 0;
    while i < |chunks| && !capped
      invariant fresh(acc) && i <= |chunks|
      invariant acc.Held() == BodyOf(Flatten(chunks[..i]), cap, retain)
      invariant capped ==> ended && i > 0 && acc.bytesRead >= cap
      invariant !capped ==> !ended && (i == 0 || acc.bytesRead < cap)
    {
      FlattenNext(chunks, i);
      PushKeepsBody(Flatten(chunks[..i]), chunks[i], cap, retain);
      capped := acc.PushBoundedBody(cap, chunks[i]);
      ended := capped;
      i := i + 1;
    }
    if capped {
      CapDecides(chunks, i, cap, retain);
    } else {
      assert chunks[..i] == chunks;
      NotCapped(chunks, cap, retain);
      if ending.Broken? {
        return Failure;
      }
      ended := ending.Complete?;
    }
    r := Report(if ended then Some(acc.bytesRead) else None, capped, acc.Held(), acc.bytesRead > |acc.snippet|);
  }

  /** The report in terms of the whole stream. The cap counts as reached when the stream holds at least
      `cap` bytes, so also when it ends there; a cap of zero is reached by the first chunk. */
  function Expected(chunks: seq<Bytes>, ending: Ending, cap: nat, retain: bool): BodyReport {
    var total := Flatten(chunks);
    var capped := |total| >= cap && chunks != [];
    var body := BodyOf(total, cap, retain);
    if !capped && ending.Broken? then Failure
    else
      Report(if capped || ending.Complete? then Some(body.bytesRead) else None, capped, body,
             body.bytesRead > |body.snippet|)
  }

  lemma NothingRead(cap: nat, retain: bool)
    ensures BodyOf(Flatten([]), cap, retain) == BodyOf([], 0, retain)
  {
  }

  /** Once the cap is reached, the chunks that follow change nothing. */
  lemma CapDecides(chunks: seq<Bytes>, i: nat, cap: nat, retain: bool)
    requires i <= |chunks| && BodyOf(Flatten(chunks[..i]), cap, retain).bytesRead >= cap
    ensures |Flatten(chunks)| >= cap
    ensures BodyOf(Flatten(chunks), cap, retain) == BodyOf(Flatten(chunks[..i]), cap, retain)
  {
    hide Flatten;
    assert chunks == chunks[..i] + chunks[i..];
    FlattenAppend(chunks[..i], chunks[i..]);
    CappedForGood(Flatten(chunks[..i]), Flatten(chunks[i..]), cap, retain);
  }

  lemma CappedForGood(before: Bytes, after: Bytes, cap: nat, retain: bool)
    requires BodyOf(before, cap, retain).bytesRead >= cap
    ensures BodyOf(before + after, cap, retain) == BodyOf(before, cap, retain)
  {
    hide BodyOf, Push;
    PushKeepsBody(before, after, cap, retain);
    PushAfterCap(BodyOf(before, cap, retain), cap, after);
  }

  lemma NotCapped(chunks: seq<Bytes>, cap: nat, retain: bool)
    requires chunks == [] || BodyOf(Flatten(chunks), cap, retain).bytesRead < cap
    ensures chunks == [] || |Flatten(chunks)| < cap
  {
  }

  /** For a positive cap the report depends on the bytes and the ending alone, not on the chunks. */
  lemma ChunkingIrrelevant(a: seq<Bytes>, b: seq<Bytes>, ending: Ending, cap: nat, retain: bool)
    requires Flatten(a) == Flatten(b) && (cap > 0 || (a == [] <==> b == []))
    ensures Expected(a, ending, cap, retain) == Expected(b, ending, cap, retain)
  {
  }

  /** `body_capped` does not tell a body that was cut from one that ended exactly at the cap. */
  lemma CappedAtTheEnd(chunks: seq<Bytes>, ending: Ending, cap: nat, retain: bool)
    requires cap > 0 && Expected(chunks, ending, cap, retain).Report?
    ensures var r := Expected(chunks, ending, cap, retain);
      && (r.capped <==> |Flatten(chunks)| >= cap)
      && (r.capped && r.bodyBytes == Some(|Flatten(chunks)|) <==> |Flatten(chunks)| == cap)
      && r.body.bytesRead == Least(cap, |Flatten(chunks)|)
      && (r.truncated <==> r.body.bytesRead > BODY_SNIPPET_BYTES)
  {
  }

  /** `body_capped` means what it is documented to mean, that the body went on past the cap, exactly when
      the body did not end at the cap. */
  lemma CappedMeansCut(chunks: seq<Bytes>, ending: Ending, cap: nat, retain: bool)
    requires Expected(chunks, ending, cap, retain).Report?
    ensures (Expected(chunks, ending, cap, retain).capped <==> |Flatten(chunks)| > cap)
       <==> !(|Flatten(chunks)| == cap && chunks != [])
  {
    hide BodyOf;
    if chunks == [] {
      assert |Flatten(chunks)| == 0;
    }
  }

  /** What a reader holds in the end: the body cut at the cap, if it was asked to keep it, the first 1024 bytes
      of that, and how many bytes were counted; and the snippet is said to be cut when those are more. */
  lemma BodyHeld(chunks: seq<Bytes>, ending: Ending, cap: nat, retain: bool)
    requires Expected(chunks, ending, cap, retain).Report?
    ensures var r, total := Expected(chunks, ending, cap, retain), Flatten(chunks);
      && (|total| <= cap ==> r.body.full == if retain then Some(total) else None)
      && (|total| > cap ==> r.body.full == if retain then Some(total[..cap]) else None)
      && r.body.bytesRead == (if |total| <= cap then |total| else cap)
      && |r.body.snippet| == (if r.body.bytesRead <= 1024 then r.body.bytesRead else 1024)
      && r.body.snippet <= total
      && (r.truncated <==> |total| > 1024 && cap > 1024)
      && (r.bodyBytes == if ending.Complete? || r.capped then Some(r.body.bytesRead) else None)
  {
    hide Flatten;
    assert Flatten(chunks)[..|Flatten(chunks)|] == Flatten(chunks);
  }

  /** A broken stream is a failure exactly when it broke before the cap was reached. */
  lemma FailureExactly(chunks: seq<Bytes>, ending: Ending, cap: nat, retain: bool)
    ensures Expected(chunks, ending, cap, retain).Failure? <==>
      ending.Broken? && (|Flatten(chunks)| < cap || chunks == [])
  {
    hide Flatten;
  }
}
