/**
 The in-process event bus: one queue object per subscriber, listed per run.  Queues are unbounded,
 so a publish never suspends and is one atomic step.  Ghost state records what was published.
 */
module EventBus {

  datatype Published = Published(run: string, message: string)

  /** The messages for one run, in publish order. */
  ghost function MessagesFor(history: seq<Published>, run: string): seq<string> {
    if history == [] then []
    else
      var before := MessagesFor(history[..|history| - 1], run);
      var last := history[|history| - 1];
      if last.run == run then before + [last.message] else before
  }

  lemma {:induction false} MessagesAppend(a: seq<Published>, b: seq<Published>, run: string)
    ensures MessagesFor(a + b, run) == MessagesFor(a, run) + MessagesFor(b, run)
    decreases |b|
  {
    if b == [] {
      assert a + b == a;
    } else {
      assert (a + b)[..|a + b| - 1] == a + b[..|b| - 1];
      MessagesAppend(a, b[..|b| - 1], run);
    }
  }

  lemma PublishedOne(history: seq<Published>, since: nat, p: Published, run: string)
    requires since <= |history|
    ensures MessagesFor((history + [p])[since..], run) ==
            MessagesFor(history[since..], run) + if p.run == run then [p.message] else []
  {
    assert (history + [p])[since..] == history[since..] + [p];
    assert [p][..0] == [];
    MessagesAppend(history[since..], [p], run);
  }

  class Queue {
    const run: string
    var items: seq<string>
    ghost const since: nat             // how many messages the bus had published at registration
    ghost var delivered: seq<string>   // what the subscriber has been handed

    constructor (run: string, ghost since: nat)
      ensures this.run == run && this.since == since && items == [] && delivered == []
    {
      this.run, this.since, items, delivered := run, since, [], [];
    }
  }

  class Bus {
    var queues: map<string, seq<Queue>>
    ghost var history: seq<Published>

    ghost function Registered(): set<Queue>
      reads this
    {
      set run, i | run in queues && 0 <= i < |queues[run]| :: queues[run][i]
    }

    ghost predicate Distinct()
      reads this
    {
      DistinctQueues(queues)
    }

    /** Delivered followed by queued is what was published to the queue's run since it registered. */
    ghost predicate UpToDate(q: Queue)
      reads this, q
    {
      && q.since <= |history|
      && q.delivered + q.items == MessagesFor(history[q.since..], q.run)
    }

    ghost predicate Valid()
      reads this, Registered()
    {
      && Distinct()
      && (forall run, i :: run in queues && 0 <= i < |queues[run]| ==> queues[run][i].run == run)
      && (forall q :: q in Registered() ==> UpToDate(q))
    }

    constructor ()
      ensures Valid() && Registered() == {} && history == []
    {
      queues, history := map[], [];
    }

    // The loop of a publish: one put per queue of the run.
    static method PutAll(targets: seq<Queue>, message: string)
      requires forall i, j :: 0 <= i < j < |targets| ==> targets[i] != targets[j]
      modifies targets
      ensures forall q :: q in targets ==> q.items == old(q.items) + [message] && q.delivered == old(q.delivered)
    {
      var i := 0;
      while i < |targets|
        invariant 0 <= i <= |targets|
        invariant forall k :: 0 <= k < |targets| ==>
                    targets[k].delivered == old(targets[k].delivered) &&
                    targets[k].items == if k < i then old(targets[k].items) + [message] else old(targets[k].items)
      {
        targets[i].items := targets[i].items + [message];
        i := i + 1;
      }
    }

    // Puts the message on every queue of the run.  Looking a run up creates its empty list.
    method Publish(run: string, message: string)
      requires Valid()
      modifies this, Registered()
      ensures Valid() && Registered() == old(Registered())
      ensures history == old(history) + [Published(run, message)]
      ensures forall q :: q in Registered() ==>
                q.delivered == old(q.delivered) &&
                q.items == if q.run == run then old(q.items) + [message] else old(q.items)
    {
      hide MessagesFor, DistinctQueues;
      ghost var before := Registered();
      assert forall x :: x in Registered() <==> Listed(queues, x);
      if run !in queues {
        AddRun(queues, run);
        queues := queues[run := []];
      }
      assert forall x :: x in Registered() <==> Listed(queues, x);
      var targets := queues[run];
      RunOfQueue(queues, run);
      PutAll(targets, message);
      ghost var was := history;
      history := history + [Published(run, message)];
      forall q | q in before ensures UpToDate(q) {
        assert q.delivered + q.items == old(q.delivered) + old(q.items) + if q.run == run then [message] else [];
        PublishedOne(was, q.since, Published(run, message), q.run);
      }
    }

    // The start of a subscription: a fresh queue at the end of the run's list.
    method Subscribe(run: string) returns (q: Queue)
      requires Valid()
      modifies this
      ensures Valid() && fresh(q) && Registered() == old(Registered()) + {q}
      ensures history == old(history)
      ensures q.run == run && q.since == |history| && q.items == [] && q.delivered == []
    {
      q := new Queue(run, |history|);
      ghost var before := queues;
      var list := if run in queues then queues[run] else [];
      queues := queues[run := list + [q]];
      assert forall r, i :: r in before && 0 <= i < |before[r]| ==> r in queues && i < |queues[r]| && queues[r][i] == before[r][i];
      assert queues[run][|list|] == q;
      forall x | x in Registered() ensures UpToDate(x) {
        assert history[|history|..] == [];
        if x != q {
          assert x in old(Registered()) && old(UpToDate(x));
        }
      }
    }

    // One turn of the subscriber's loop: `queue.get()` waits until the queue is not empty.
    method Next(q: Queue) returns (message: string)
      requires Valid() && q in Registered() && q.items != []
      modifies q
      ensures Valid() && message == old(q.items)[0]
      ensures q.items == old(q.items)[1..] && q.delivered == old(q.delivered) + [message]
    {
      message := q.items[0];
      q.items := q.items[1..];
      q.delivered := q.delivered + [message];
      assert q.delivered + q.items == old(q.delivered) + old(q.items);
    }

    // The `finally` block: the queue leaves its run's list, the others keep their order.
    method Unsubscribe(q: Queue)
      requires Valid() && q in Registered()
      modifies this`queues
      ensures Valid() && Registered() == old(Registered()) - {q}
      ensures q.run in old(queues) && q.run in queues
      ensures exists k :: 0 <= k < |old(queues)[q.run]| && old(queues)[q.run][k] == q &&
                queues == old(queues)[q.run := old(queues)[q.run][..k] + old(queues)[q.run][k + 1..]]
    {
      var list := queues[q.run];
      var k := 0;
      while list[k] != q
        invariant 0 <= k < |list| && q !in list[..k] && q in list
        decreases |list| - k
      {
        k := k + 1;
      }
      DropQueue(queues, q.run, k);
      assert forall x :: x in Registered() <==> Listed(queues, x);
      queues := queues[q.run := list[..k] + list[k + 1..]];
      assert forall x :: x in Registered() <==> Listed(queues, x);
    }
  }

  ghost predicate DistinctQueues(queues: map<string, seq<Queue>>) {
    forall run, i, j :: run in queues && 0 <= i < j < |queues[run]| ==> queues[run][i] != queues[run][j]
  }

  /** A run's list holds exactly the queues of the run. */
  lemma RunOfQueue(queues: map<string, seq<Queue>>, run: string)
    requires run in queues && DistinctQueues(queues)
    requires forall r, i :: r in queues && 0 <= i < |queues[r]| ==> queues[r][i].run == r
    ensures forall i, j :: 0 <= i < j < |queues[run]| ==> queues[run][i] != queues[run][j]
    ensures forall q :: q in queues[run] <==> Listed(queues, q) && q.run == run
  {
    forall q | q in queues[run] ensures Listed(queues, q) && q.run == run {
      var i :| 0 <= i < |queues[run]| && queues[run][i] == q;
    }
  }

  lemma AddRun(queues: map<string, seq<Queue>>, run: string)
    requires run !in queues
    ensures DistinctQueues(queues) ==> DistinctQueues(queues[run := []])
    ensures forall x :: Listed(queues[run := []], x) <==> Listed(queues, x)
  {
    var now := queues[run := []];
    forall x | Listed(queues, x) ensures Listed(now, x) {
      var r, i :| r in queues && 0 <= i < |queues[r]| && queues[r][i] == x;
      assert now[r][i] == x;
    }
  }

  ghost predicate Listed(queues: map<string, seq<Queue>>, q: Queue) {
    exists run, i :: run in queues && 0 <= i < |queues[run]| && queues[run][i] == q
  }

  /** Taking one queue out of its list keeps the lists distinct and takes out no other. */
  lemma DropQueue(queues: map<string, seq<Queue>>, run: string, k: nat)
    requires run in queues && k < |queues[run]| && DistinctQueues(queues)
    requires forall r, i :: r in queues && 0 <= i < |queues[r]| ==> queues[r][i].run == r
    ensures var now := queues[run := queues[run][..k] + queues[run][k + 1..]];
            && DistinctQueues(now)
            && forall x :: Listed(now, x) <==> Listed(queues, x) && x != queues[run][k]
  {
    var now := queues[run := queues[run][..k] + queues[run][k + 1..]];
    assert forall i :: 0 <= i < |now[run]| ==> now[run][i] == queues[run][if i < k then i else i + 1];
    forall x ensures Listed(now, x) <==> Listed(queues, x) && x != queues[run][k] {
      if Listed(queues, x) && x != queues[run][k] {
        var r, i :| r in queues && 0 <= i < |queues[r]| && queues[r][i] == x;
        assert now[r][if r == run && i > k then i - 1 else i] == x;
      }
      if Listed(now, x) {
        var r, i :| r in now && 0 <= i < |now[r]| && now[r][i] == x;
        assert queues[r][if r == run && i >= k then i + 1 else i] == x;
      }
    }
  }
}
