/**
 Where the two implementations part. A lease acknowledged on a route it was not given for: the
 Go store numbers leases for the whole process, the Worker for each route. And a lease sent
 back with a space before it: the Go store compares the id as sent, the Worker trims it. And a
 sequence number beyond 2^53: the Go server reads it into 64 bits, the Worker into a double.
 */
module SimulationCounterexample {
  import opened Text
  import opened Messages
  import opened Queues
  import opened Simulation
  import G = Stores
  import W = Worker
  import Js

  const A := Route("e", "a", "c2s")
  const B := Route("e", "b", "c2s")

  function Script(): seq<Request> {
    [Request(0, Put(A, 1, "")), Request(0, Put(B, 1, "")), Request(0, Hold(A, 0, 1)), Request(0, Hold(B, 0, 1)),
     Request(0, Confirm(B, 2, "", ""))]
  }

  lemma KeysDiffer()
    ensures Key(A) != Key(B)
  {
    if Key(A) == Key(B) { KeyInjective(A, B); }
  }

  // ---- The Worker's queue ----

  const FREE := W.Msg(MessageId(1), 1, "", 0, None, None)

  lemma WorkerPut()
    ensures W.Put(W.View(W.Nothing), 1, "", true, 0) == W.Outcome(W.Queue(2, 1, [FREE]), W.Accepted)
  {
  }

  lemma WorkerHold()
    ensures var o, held := W.Take(W.Queue(2, 1, [FREE]), 0, Some(1), 0), W.MarkOne(FREE, W.LeaseName(1), 1);
            o.q == W.Queue(2, 2, [held]) && o.answer == W.Leased(W.LeaseName(1), 1, [held])
  {
    hide W.LeaseName, MessageId;
    assert W.Release([FREE], 0) == [FREE] && [FREE][1..] == [];
    assert W.Young([FREE], 0) == [FREE];
    assert W.Available([FREE], 0, 0) == [FREE];
    assert W.Marked([FREE], 0, 0, W.LeaseName(1), 1) == [W.MarkOne(FREE, W.LeaseName(1), 1)];
    assert W.MarkAll([FREE], W.LeaseName(1), 1) == [W.MarkOne(FREE, W.LeaseName(1), 1)];
  }

  lemma HeldIsUnder()
    ensures var held := W.MarkOne(FREE, W.LeaseName(1), 1);
            W.Under(W.Loaded(W.Queue(2, 2, [held]), 0).msgs, W.LeaseName(1)) == [held]
  {
    hide W.LeaseName, MessageId;
    var held := W.MarkOne(FREE, W.LeaseName(1), 1);
    assert W.Release([held], 0) == [held] && [held][1..] == [];
    assert W.Young([held], 0) == [held];
  }

  /** The second route's first lease has the name of the first route's. */
  lemma CrossRouteReaches()
    ensures Reached(Script(), 4) == [W.MarkOne(FREE, W.LeaseName(1), 1)]
  {
    hide Key, W.LeaseName, MessageId, W.Put, W.Take, W.Loaded, W.Under, TrimSpace;
    KeysDiffer();
    WorkerPut();
    WorkerHold();
    var s := Script();
    assert s[..1][..0] == [] && s[..2][..1] == s[..1] && s[..3][..2] == s[..2] && s[..4][..3] == s[..3];
    var w0, w1, w2, w3, w4 := WorkerRun([]), WorkerRun(s[..1]), WorkerRun(s[..2]), WorkerRun(s[..3]), WorkerRun(s[..4]);
    assert QueueOf(w1.queues, Key(A)) == W.Queue(2, 1, [FREE]) && QueueOf(w1.queues, Key(B)) == W.View(W.Nothing);
    assert QueueOf(w2.queues, Key(A)) == W.Queue(2, 1, [FREE]) == QueueOf(w2.queues, Key(B));
    assert w4.answers[2] == w3.answers[2] && w4.answers[2].Leased?;
    assert "" + W.LeaseName(1) + "" == W.LeaseName(1);
    NameTrims(W.LeaseName(1));
    HeldIsUnder();
  }

  /**
   Acknowledging the first route's lease on the second route: everything else is sent verbatim on
   its own route, and the Go store refuses where the Worker deletes a message.
   */
  lemma CrossRouteAcksDiverge(epoch: string)
    ensures WellFormed(Script()) && forall i :: 0 <= i < 5 ==> (Verbatim(Script(), i) <==> i < 4)
    ensures |GoRun(epoch, Script()).answers| == |WorkerRun(Script()).answers| == 5
    ensures GoRun(epoch, Script()).answers[4] == G.Refused(G.NoSuchLease)
    ensures WorkerRun(Script()).answers[4] == W.Deleted(1)
  {
    hide Key, GoRun, WorkerRun, Reached;
    KeysDiffer();
    var s := Script();
    CrossRouteReaches();
    assert forall i :: 0 <= i < 4 ==> Proper(s, i);
    assert !Proper(s, 4);
    Parts(s, epoch, 4);
    AnswersStay(s, epoch, 5);
    assert s[..5] == s;
  }

  // ---- A padded id ----

  function PaddedScript(): seq<Request> {
    [Request(0, Put(A, 1, "")), Request(0, Hold(A, 0, 1)), Request(0, Confirm(A, 1, " ", ""))]
  }

  lemma PaddedNameTrims()
    ensures TrimSpace(" " + W.LeaseName(1) + "") == W.LeaseName(1)
  {
    hide W.LeaseName, TrimRight;
    var name := W.LeaseName(1);
    NameTrims(name);
    assert (" " + name + "")[1..] == name;
  }

  /** What the padded id finds at the Worker. */
  lemma PaddedReaches()
    ensures Reached(PaddedScript(), 2) == [W.MarkOne(FREE, W.LeaseName(1), 1)]
  {
    hide Key, W.LeaseName, MessageId, W.Put, W.Take, W.Loaded, W.Under, TrimSpace;
    WorkerPut();
    WorkerHold();
    var s := PaddedScript();
    assert s[..1][..0] == [] && s[..2][..1] == s[..1];
    var w0, w1, w2 := WorkerRun([]), WorkerRun(s[..1]), WorkerRun(s[..2]);
    assert QueueOf(w1.queues, Key(A)) == W.Queue(2, 1, [FREE]);
    PaddedNameTrims();
    NameNotEmpty(1);
    HeldIsUnder();
  }

  /** One space before the id, on its own route: the Go store refuses and the Worker deletes the message. */
  lemma PaddedAcksDiverge(epoch: string)
    ensures WellFormed(PaddedScript())
    ensures |GoRun(epoch, PaddedScript()).answers| == |WorkerRun(PaddedScript()).answers| == 3
    ensures GoRun(epoch, PaddedScript()).answers[2] == G.Refused(G.NoSuchLease)
    ensures WorkerRun(PaddedScript()).answers[2] == W.Deleted(1)
  {
    hide Key, GoRun, WorkerRun, Reached;
    var s := PaddedScript();
    PaddedReaches();
    assert forall i :: 0 <= i < 2 ==> Proper(s, i);
    assert !Proper(s, 2);
    Parts(s, epoch, 2);
    AnswersStay(s, epoch, 3);
    assert s[..3] == s;
  }

  // ---- A large number ----

  function LargeScript(): seq<Request> {
    [Request(0, Put(A, Js.EXACT + 1, "")), Request(0, Collect(A, 0))]
  }

  /** A young free message alone in its queue is what a collection takes. */
  lemma OnlyTaken(q: Queue)
    requires |q| == 1 && q[0].rec.at == 0 && q[0].lease == ""
    ensures Taken(Release(Fresh(q, 0), 0), 0, 0) == q
  {
    assert Fresh(q, 0) == q && Release(q, 0) == q && q[1..] == [];
    assert Taken([], 0, 1) == [];
    assert Taken(q, 0, 0) == [q[0]];
  }

  lemma GoPuts(s: G.Store, r: Route, n: nat)
    requires ValidRoute(r) && G.At(s, Key(r)) == []
    ensures var q := G.At(G.Apply(s, G.Put(r, n, "", Some("")), 0).store, Key(r));
            |q| == 1 && q[0].rec.at == 0 && q[0].lease == "" && q[0].rec.seqno == n
  {
    hide Key, MessageId, G.Apply, Fresh, ValidRoute;
    G.QueueAfter(s, G.Put(r, n, "", Some("")), 0);
    NothingFresh();
  }

  lemma NothingFresh()
    ensures Fresh([], 0) == []
  {
  }

  /** What the Go server hands over. */
  lemma GoDelivers(epoch: string)
    ensures var answers := GoRun(epoch, LargeScript()).answers;
            && |answers| == 2 && answers[1].Delivered? && |answers[1].msgs| == 1
            && answers[1].msgs[0].rec.seqno == Js.EXACT + 1
  {
    hide Key, G.Apply, Taken, Release, Fresh;
    var s := LargeScript();
    var g0, g1 := GoRun(epoch, []), GoRun(epoch, s[..1]);
    assert s[..2] == s && s[..1][..0] == [];
    GoPuts(g0.store, A, Js.EXACT + 1);
    OnlyTaken(G.At(g1.store, Key(A)));
    TakeAnswer(g1.store, G.Take(A, 0), 0);
  }

  /** What the Worker hands over, as it stores it. */
  lemma WorkerDelivers()
    ensures var answers := WorkerRun(LargeScript()).answers;
            && |answers| == 2 && answers[1].Delivered? && |answers[1].msgs| == 1
            && answers[1].msgs[0].seqno == Js.Nearest(Js.EXACT + 1)
  {
    hide Key, MessageId, Js.Nearest;
    var s := LargeScript();
    var m := W.Msg(MessageId(1), Js.Nearest(Js.EXACT + 1), "", 0, None, None);
    var w0, w1 := WorkerRun([]), WorkerRun(s[..1]);
    assert s[..2] == s && s[..1][..0] == [];
    assert W.Put(W.View(W.Nothing), Js.EXACT + 1, "", true, 0) == W.Outcome(W.Queue(2, 1, [m]), W.Accepted);
    assert QueueOf(w1.queues, Key(A)) == W.Queue(2, 1, [m]);
    assert W.Young([m], 0) == [m] && W.Release([m], 0) == [m] && [m][1..] == [];
    assert W.Available([m], 0, 0) == [m];
  }

  /** No acknowledgement at all: the Go server delivers the number put, the Worker the one before it. */
  lemma LargeNumbersDiverge(epoch: string)
    ensures WellFormed(LargeScript()) && forall i :: 0 <= i < 2 ==> Proper(LargeScript(), i)
    ensures var g, w := GoRun(epoch, LargeScript()).answers, WorkerRun(LargeScript()).answers;
            && |g| == |w| == 2 && g[1].Delivered? && w[1].Delivered? && |g[1].msgs| == |w[1].msgs| == 1
            && g[1].msgs[0].rec.seqno == 9007199254740993 && Js.Printed(w[1].msgs[0].seqno) == 9007199254740992
  {
    hide GoRun, WorkerRun, Js.Nearest, Js.Printed;
    GoDelivers(epoch);
    WorkerDelivers();
    Js.FirstLost();
  }
}
