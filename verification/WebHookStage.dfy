/**
 * What a WebHook call does to the protocol. A call that returns, well or not, changes nothing but the posts; one
 * that aborts stops its node for good; one that keeps retrying keeps its event from everything that comes later.
 */
module WebHookStage {
  import opened Text
  import opened Events
  import opened Node
  import opened Replication
  import WebHook

  /** The outcome of the WebHook call of a step. */
  function OutcomeOf(s: Cluster, step: Step): WebHook.Outcome
    requires step.Post? && Enabled(s, step)
  {
    WebHookCall(s.nodes[step.n].cfg, step.token, TaskOf(s.nodes[step.n], step.side).e, step.script).outcome
  }

  /** The event goes on exactly if the call returns, the node stops exactly if it aborts. */
  lemma PostExactly(s: Cluster, step: Step)
    requires step.Post? && Enabled(s, step)
    ensures var node, node' := s.nodes[step.n], Next(s, step).nodes[step.n];
            && (TaskOf(node', step.side) != TaskOf(node, step.side) <==> OutcomeOf(s, step).Success? || OutcomeOf(s, step).Failure?)
            && (node'.stopped <==> OutcomeOf(s, step).Aborted?)
            && (OutcomeOf(s, step).Aborted? || OutcomeOf(s, step).Running? ==>
                  node' == node.(stopped := node'.stopped) && Next(s, step).dht == s.dht)
  {
  }

  /** A stopped node stays as it is. */
  lemma {:induction false} StoppedIsFrozen(s: Cluster, steps: seq<Step>, n: string)
    requires n in s.nodes && s.nodes[n].stopped
    ensures n in Run(s, steps).nodes && Run(s, steps).nodes[n] == s.nodes[n]
  {
    if steps != [] {
      StoppedIsFrozen(s, steps[..|steps| - 1], n);
      GrowingHistory(Run(s, steps[..|steps| - 1]), steps[|steps| - 1]);
    }
  }

  // ----- which events get as far as the DHT -----

  /** The step is a WebHook call for local event e of node n that returns. */
  predicate ReturnsFor(s: Cluster, step: Step, n: string, e: BadActor) {
    step.Post? && step.side.Local? && step.n == n && Enabled(s, step) && s.nodes[n].local.e == e && Returns(OutcomeOf(s, step))
  }

  predicate Publishing(s: Cluster, n: string, e: BadActor) {
    n in s.nodes && s.nodes[n].local.Busy? && s.nodes[n].local.stage.ToPublish? && s.nodes[n].local.e == e
  }

  /** At some point of the run a WebHook call for e returned. */
  predicate EverReturned(s: Cluster, steps: seq<Step>, n: string, e: BadActor) {
    steps != [] &&
    (EverReturned(s, steps[..|steps| - 1], n, e) ||
     ReturnsFor(Run(s, steps[..|steps| - 1]), steps[|steps| - 1], n, e))
  }

  /** At some point of the run e was about to be published. */
  predicate EverPublishing(s: Cluster, steps: seq<Step>, n: string, e: BadActor) {
    Publishing(Run(s, steps), n, e) || (steps != [] && EverPublishing(s, steps[..|steps| - 1], n, e))
  }

  lemma PublishingStep(s: Cluster, step: Step, n: string, e: BadActor)
    requires n in s.nodes && s.nodes[n].cfg.webhookMode && s.nodes[n].cfg.dhtMode
    ensures n in Next(s, step).nodes && Next(s, step).nodes[n].cfg == s.nodes[n].cfg
    ensures Publishing(Next(s, step), n, e) ==> Publishing(s, n, e) || ReturnsFor(s, step, n, e)
    ensures ReturnsFor(s, step, n, e) ==> Publishing(Next(s, step), n, e)
  {
    GrowingHistory(s, step);
  }

  /** In any run of a node with a WebHook, a local event gets to the DHT stage exactly if its WebHook call returned. */
  lemma {:induction false} PublishingExactly(s: Cluster, steps: seq<Step>, n: string, e: BadActor)
    requires Init(s) && n in s.nodes && s.nodes[n].cfg.webhookMode && s.nodes[n].cfg.dhtMode
    ensures EverPublishing(s, steps, n, e) <==> EverReturned(s, steps, n, e)
  {
    if steps != [] {
      var last := |steps| - 1;
      PublishingExactly(s, steps[..last], n, e);
      ConfigStays(s, steps[..last], n);
      PublishingStep(Run(s, steps[..last]), steps[last], n, e);
      if Publishing(Run(s, steps[..last]), n, e) {
        EverNow(s, steps[..last], n, e);
      }
    }
  }

  lemma EverNow(s: Cluster, steps: seq<Step>, n: string, e: BadActor)
    requires Publishing(Run(s, steps), n, e)
    ensures EverPublishing(s, steps, n, e)
  {
  }

  /** The object was put for a local event whose WebHook call had returned. */
  ghost predicate PutAfterReturn(s: Cluster, steps: seq<Step>, n: string, o: JsonObject) {
    exists e :: ToJson(e) == Some(o) && EverReturned(s, steps, n, e)
  }

  /** So every put was preceded by a returning WebHook call for the same event. */
  lemma {:induction false} PutsFollowReturns(s: Cluster, steps: seq<Step>, n: string, o: JsonObject)
    requires Init(s) && n in s.nodes && s.nodes[n].cfg.webhookMode && s.nodes[n].cfg.dhtMode
    ensures n in Run(s, steps).nodes
    ensures o in Run(s, steps).nodes[n].store.puts ==> PutAfterReturn(s, steps, n, o)
  {
    if steps != [] {
      var last := |steps| - 1;
      var before := Run(s, steps[..last]);
      PutsFollowReturns(s, steps[..last], n, o);
      ConfigStays(s, steps, n);
      PutStep(before, steps[last], n, o);
      if o in before.nodes[n].store.puts {
        var e :| ToJson(e) == Some(o) && EverReturned(s, steps[..last], n, e);
        assert EverReturned(s, steps, n, e);
      } else if o in Run(s, steps).nodes[n].store.puts {
        var e := before.nodes[n].local.e;
        EverNow(s, steps[..last], n, e);
        PublishingExactly(s, steps[..last], n, e);
        assert EverReturned(s, steps, n, e);
      }
    }
  }

  lemma PutStep(s: Cluster, step: Step, n: string, o: JsonObject)
    requires n in s.nodes
    ensures n in Next(s, step).nodes
    ensures o in Next(s, step).nodes[n].store.puts && o !in s.nodes[n].store.puts ==>
              Publishing(s, n, s.nodes[n].local.e) && ToJson(s.nodes[n].local.e) == Some(o)
  {
    GrowingHistory(s, step);
  }

  // ----- calls that return differ in nothing but the posts -----

  function WithoutPosts(node: NodeState): NodeState {
    node.(store := node.store.(posts := []))
  }

  predicate SameButPosts(s: Cluster, t: Cluster) {
    s.dht == t.dht && s.events == t.events && s.nodes.Keys == t.nodes.Keys &&
    forall n :: n in s.nodes ==> WithoutPosts(s.nodes[n]) == WithoutPosts(t.nodes[n])
  }

  /** Both return, both abort, or both go on. */
  predicate SameEnd(a: WebHook.Outcome, b: WebHook.Outcome) {
    a == b || (Returns(a) && Returns(b))
  }

  /** The same step, or two WebHook calls whose scripts end in the same way on that node, up to success and failure. */
  predicate SameButCall(s: Cluster, a: Step, b: Step) {
    a == b ||
    (a.Post? && b.Post? && a.n == b.n && a.side == b.side &&
     (a.n in s.nodes ==>
        var oauth2 := s.nodes[a.n].cfg.oauth2Mode;
        SameEnd(WebHook.Posted(oauth2, a.token, a.script).outcome, WebHook.Posted(oauth2, b.token, b.script).outcome)))
  }

  lemma SameNext(s: Cluster, t: Cluster, a: Step, b: Step)
    requires SameButPosts(s, t) && SameButCall(s, a, b)
    ensures SameButPosts(Next(s, a), Next(t, b))
  {
    SameEnabled(s, t, a, b);
    GrowingHistory(s, a);
    GrowingHistory(t, b);
    if Enabled(s, a) && !a.Forge? {
      SameNodeNext(s, t, a, b);
      forall n | n in Next(s, a).nodes
        ensures WithoutPosts(Next(s, a).nodes[n]) == WithoutPosts(Next(t, b).nodes[n])
      {
        assert WithoutPosts(s.nodes[n]) == WithoutPosts(t.nodes[n]);
      }
    }
  }

  lemma SameEnabled(s: Cluster, t: Cluster, a: Step, b: Step)
    requires SameButPosts(s, t) && SameButCall(s, a, b)
    ensures Enabled(s, a) <==> Enabled(t, b)
  {
    forall n | n in s.nodes
      ensures s.nodes[n].local == t.nodes[n].local && s.nodes[n].incoming == t.nodes[n].incoming
      ensures s.nodes[n].stopped == t.nodes[n].stopped
    {
      assert WithoutPosts(s.nodes[n]) == WithoutPosts(t.nodes[n]);
    }
  }

  lemma SamePost(x: NodeState, y: NodeState, side: Side, a: WebHook.Outcome, b: WebHook.Outcome)
    requires WithoutPosts(x) == WithoutPosts(y) && TaskOf(x, side).Busy? && TaskOf(y, side).Busy? && SameEnd(a, b)
    ensures WithoutPosts(PostDone(x, side, a)) == WithoutPosts(PostDone(y, side, b))
  {
    assert x.store.(posts := []) == y.store.(posts := []);
    assert x.cfg == y.cfg && x.local == y.local && x.incoming == y.incoming && x.received == y.received;
    assert x.stopped == y.stopped;
  }

  lemma SameNodeNext(s: Cluster, t: Cluster, a: Step, b: Step)
    requires SameButPosts(s, t) && SameButCall(s, a, b) && Enabled(s, a) && Enabled(t, b) && !a.Forge?
    ensures WithoutPosts(NodeNext(s, a)) == WithoutPosts(NodeNext(t, b))
    ensures NodeNext(s, a).store.puts == s.nodes[a.n].store.puts <==> NodeNext(t, b).store.puts == t.nodes[a.n].store.puts
    ensures s.nodes[a.n].local == t.nodes[a.n].local
  {
    var x, y := s.nodes[a.n], t.nodes[b.n];
    assert WithoutPosts(x) == WithoutPosts(y);
    assert x.cfg == y.cfg && x.local == y.local && x.incoming == y.incoming && x.received == y.received;
    assert x.stopped == y.stopped && x.store.(posts := []) == y.store.(posts := []);
    if a.Post? {
      SamePost(x, y, a.side, OutcomeOf(s, a), OutcomeOf(t, b));
    }
  }

  /**
   * Runs whose WebHook calls differ only between success and failure have the same tables, logs, puts and DHT:
   * a failed WebHook never stops a put.
   */
  lemma {:induction false} SuccessAndFailureAgree(s: Cluster, xs: seq<Step>, ys: seq<Step>)
    requires |xs| == |ys| && forall k :: 0 <= k < |xs| ==> SameButCall(s, xs[k], ys[k])
    ensures SameButPosts(Run(s, xs), Run(s, ys))
  {
    if xs == [] {
    } else {
      var last := |xs| - 1;
      SuccessAndFailureAgree(s, xs[..last], ys[..last]);
      var n := if xs[last].Post? then xs[last].n else "";
      if n in s.nodes {
        ConfigStays(s, xs[..last], n);
      }
      NodesStay(s, xs[..last]);
      SameNext(Run(s, xs[..last]), Run(s, ys[..last]), xs[last], ys[last]);
    }
  }

  // ----- an aborting and an endless call -----

  /** One node with all modes but the JSON log. */
  function Alone(n: string): Cluster {
    Cluster(map[n := NodeState(Config(n, false, true, true, true), Store([], [], [], []), Idle, Idle, {}, false)], [], [])
  }

  /** A first attempt that is answered with `token`, and whose POST is answered with 401. */
  function Refused(token: WebHook.TokenReply): WebHook.Attempt {
    WebHook.Attempt(true, true, token, true, true, WebHook.Status(401))
  }

  lemma AtPost(n: string, e: BadActor)
    requires IsLowerUuid(n) && IsLocalEvent(Alone(n), n, e)
    ensures Init(Alone(n))
    ensures var s2 := Next(Next(Alone(n), LocalEvent(n, e)), Insert(n, Local, Inserted));
            && n in s2.nodes && AtStage(s2, n, Local, ToPost) && s2.nodes[n].local.e == e && s2.nodes[n].cfg == Alone(n).nodes[n].cfg
            && s2.nodes[n].store == Store([], [RowOf(e)], [], []) && s2.dht == []
  {
    var s1 := Next(Alone(n), LocalEvent(n, e));
    assert s1.nodes[n].local == Busy(e, ToInsert, true);
  }

  /** A token answer without a token: the event is stored, and in no continuation is it ever put on the DHT. */
  lemma AbortedCallLosesPut(n: string, e: BadActor, more: seq<Step>)
    requires IsLowerUuid(n) && IsLocalEvent(Alone(n), n, e) && ToJson(e).Some?
    ensures var steps := [LocalEvent(n, e), Insert(n, Local, Inserted), Post(n, Local, None, [Refused(WebHook.Unusable)])];
            var nodes := Run(Alone(n), steps + more).nodes;
            Init(Alone(n)) && n in nodes && nodes[n].stopped && nodes[n].store == Store([], [RowOf(e)], [], [])
  {
    var script := [Refused(WebHook.Unusable)];
    var steps := [LocalEvent(n, e), Insert(n, Local, Inserted), Post(n, Local, None, script)];
    AtPost(n, e);
    RunOfThree(Alone(n), steps[0], steps[1], steps[2]);
    assert WebHook.Posted(true, None, script).outcome.Aborted?;
    RunConcat(Alone(n), steps, more);
    StoppedIsFrozen(Run(Alone(n), steps), more, n);
  }

  /** However many 401 answers have come, the event is stored and not put. */
  lemma EndlessCallDelaysPut(n: string, e: BadActor, token: string, k: nat)
    requires IsLowerUuid(n) && IsLocalEvent(Alone(n), n, e) && ToJson(e).Some?
    ensures var script := seq(k, _ => Refused(WebHook.Granted(token)));
            var s3 := Run(Alone(n), [LocalEvent(n, e), Insert(n, Local, Inserted), Post(n, Local, None, script)]);
            && Init(Alone(n)) && AtStage(s3, n, Local, ToPost) && s3.nodes[n].store == Store([], [RowOf(e)], [], [])
  {
    var script := seq(k, _ => Refused(WebHook.Granted(token)));
    AtPost(n, e);
    RunOfThree(Alone(n), LocalEvent(n, e), Insert(n, Local, Inserted), Post(n, Local, None, script));
    assert forall i :: 0 <= i < k ==> script[i] == Refused(WebHook.Granted(token));
    WebHook.RunsForever(None, script);
    var s2 := Next(Next(Alone(n), LocalEvent(n, e)), Insert(n, Local, Inserted));
    assert OutcomeOf(s2, Post(n, Local, None, script)).Running?;
    PostExactly(s2, Post(n, Local, None, script));
  }
}
