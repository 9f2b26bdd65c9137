/** The app and the server together: a publication that is sent again under its
    key, after lost replies, failed writes or restarts. */
module Delivery {
  import opened Common
  import C = Controller
  import P = Publish

  /** The request that the server makes of a sending: `text` writes the key and
      `render` reads the payload. */
  ghost predicate RequestOf(
    r: P.Request, s: C.Sending, text: C.Key -> string, render: C.Payload -> P.Publication
  ) {
    r.api == P.V2 && r.key == Some(P.Sha256(text(s.key))) && r.publication == render(s.payload)
  }

  ghost predicate SentBy(
    r: P.Request, sent: seq<C.Sending>, text: C.Key -> string, render: C.Payload -> P.Publication
  ) {
    exists i :: 0 <= i < |sent| && RequestOf(r, sent[i], text, render)
  }

  /** The app's keys come from the app alone. Other clients may send what they
      like under other keys, or without one. */
  ghost predicate OwnKeys(
    calls: seq<P.Call>, sent: seq<C.Sending>, text: C.Key -> string, render: C.Payload -> P.Publication
  ) {
    forall c, i | 0 <= c < |calls| && 0 <= i < |sent| && calls[c].request.key == Some(P.Sha256(text(sent[i].key))) ::
      SentBy(calls[c].request, sent, text, render)
  }

  lemma OneBodyPerKey(
    events: seq<C.Event>, calls: seq<P.Call>, i: nat, text: C.Key -> string, render: C.Payload -> P.Publication
  )
    requires C.FreshKeys(events) && i < |C.Run(events).sent|
    requires forall a, b | text(a) == text(b) :: a == b
    requires OwnKeys(calls, C.Run(events).sent, text, render)
    ensures P.OneBody(calls, P.Sha256(text(C.Run(events).sent[i].key)), render(C.Run(events).sent[i].payload))
  {
    C.RunKeeps(events);
    var sent := C.Run(events).sent;
    forall c | 0 <= c < |calls| && calls[c].request.key == Some(P.Sha256(text(sent[i].key)))
      ensures calls[c].request.api == P.V2 && calls[c].request.publication == render(sent[i].payload)
    {
      assert SentBy(calls[c].request, sent, text, render);
      var j :| 0 <= j < |sent| && RequestOf(calls[c].request, sent[j], text, render);
      assert text(sent[j].key) == text(sent[i].key);
      assert i == j || i < j || j < i;
    }
  }

  /** Whatever the app goes through, whatever other clients send and however the
      server's steps interleave, no request of the app is ever told of a
      conflict, provided nobody else uses its keys. */
  lemma NoRetryConflicts(
    events: seq<C.Event>, run: seq<P.World>, n: nat, text: C.Key -> string, render: C.Payload -> P.Publication
  )
    requires C.FreshKeys(events) && P.Run(run) && n < |run|
    requires forall a, b | text(a) == text(b) :: a == b
    requires OwnKeys(run[0].calls, C.Run(events).sent, text, render)
    requires forall i | 0 <= i < |C.Run(events).sent| ::
               !P.KeyTaken(run[0].store, Some(P.Sha256(text(C.Run(events).sent[i].key))))
    ensures forall c | 0 <= c < |run[n].calls| && SentBy(run[n].calls[c].request, C.Run(events).sent, text, render) ::
              run[n].calls[c].stage != P.Done(409)
  {
    var sent := C.Run(events).sent;
    P.SameRequests(run, n);
    forall c | 0 <= c < |run[n].calls| && SentBy(run[n].calls[c].request, sent, text, render)
      ensures run[n].calls[c].stage != P.Done(409)
    {
      var i: nat :| i < |sent| && RequestOf(run[0].calls[c].request, sent[i], text, render);
      OneBodyPerKey(events, run[0].calls, i, text, render);
      P.RetriesNeverConflict(run, n, P.Sha256(text(sent[i].key)), render(sent[i].payload));
    }
  }

  /** Two sendings of the app with nothing but retries, refusals, lost answers
      and restarts between them, that both reach the server and succeed: they
      name one segment, which holds what was sent, unless a purge between the
      answers comes a day or more behind its creation. */
  lemma RetriedIsOneSegment(
    events: seq<C.Event>, m: nat, n: nat, run: seq<P.World>, i: nat, p: nat, q: nat, text: C.Key -> string,
    render: C.Payload -> P.Publication
  )
    requires m < n && C.Sends(events, m) && C.Sends(events, n) && C.KeyKeptThrough(events, m, n)
    requires C.FreshKeys(events)
    requires P.Run(run) && i < |run| && P.AllDayLong(run[0].store)
    requires p < q < |run[i].log| && AnswersSending(run[i], p, events, m, text, render)
    requires AnswersSending(run[i], q, events, n, text, render)
    requires forall r: nat | p < r < q && run[i].log[r].Removed? ::
               run[i].log[r].now < run[i].log[p].row.createdAt + 1440
    ensures run[i].log[p].id == run[i].log[q].id && run[i].log[q].status == 200
    ensures run[i].log[q].row.publication == render(C.Run(events).sent[|C.SentBefore(events, m)|].payload)
  {
    C.RetrySendsTheSameKey(events, m, n);
    P.SuccessAnswersRequest(run, i, p);
    P.SuccessAnswersRequest(run, i, q);
    P.RetriesAgreeForADay(run, i, p, q);
  }

  /** Entry p is a success for what the app sent at event m. */
  ghost predicate AnswersSending(
    w: P.World, p: nat, events: seq<C.Event>, m: nat, text: C.Key -> string, render: C.Payload -> P.Publication
  ) {
    && m < |events| && |C.SentBefore(events, m)| < |C.Run(events).sent|
    && p < |w.log| && w.log[p].Returned? && w.log[p].call < |w.calls|
    && RequestOf(w.calls[w.log[p].call].request, C.Run(events).sent[|C.SentBefore(events, m)|], text, render)
  }
}
