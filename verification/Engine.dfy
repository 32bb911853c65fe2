/** The engine (internal/engine/engine.go): fan out an update to the strategies,
    queue what they detect, and serve the best unexpired opportunity. */
module Engine {
  import opened Types
  import opened OppHeap

  /** Everything detected on one update, given what each strategy returned. */
  function Detections(answers: seq<seq<Opportunity>>): seq<Opportunity> {
    if answers == [] then [] else Detections(answers[..|answers| - 1]) + answers[|answers| - 1]
  }

  /** Nothing returned by any strategy is lost or added: an opportunity is detected as
      often as it occurs in all the answers together. */
  lemma {:induction false} DetectionsCount(answers: seq<seq<Opportunity>>, o: Opportunity)
    ensures multiset(Detections(answers))[o]
            == |set j, k | 0 <= j < |answers| && 0 <= k < |answers[j]| && answers[j][k] == o :: (j, k)|
    decreases |answers|, if answers == [] then 0 else |answers[|answers| - 1]|
  {
    hide Detections, Occurrences;
    OccurrencesAre(answers, o);
    if answers == [] {
      NothingOccurs(o);
    } else {
      var n := |answers| - 1;
      var front, last := answers[..n], answers[n];
      assert answers == front + [last];
      if last == [] {
        OccurrencesAre(front, o);
        DetectionsCount(front, o);
        EmptyAnswer(front, o);
      } else {
        var m := |last| - 1;
        var fewer := front + [last[..m]];
        OccurrencesAre(fewer, o);
        DetectionsCount(fewer, o);
        OneMoreDetection(front, last, o);
      }
    }
  }

  ghost function Occurrences(answers: seq<seq<Opportunity>>, o: Opportunity): set<(int, int)> {
    set j, k | 0 <= j < |answers| && 0 <= k < |answers[j]| && answers[j][k] == o :: (j, k)
  }

  lemma OccurrencesAre(answers: seq<seq<Opportunity>>, o: Opportunity)
    ensures Occurrences(answers, o)
            == set j, k | 0 <= j < |answers| && 0 <= k < |answers[j]| && answers[j][k] == o :: (j, k)
  {
  }

  lemma NothingOccurs(o: Opportunity)
    ensures Detections([]) == [] && Occurrences([], o) == {}
  {
  }

  lemma EmptyAnswer(front: seq<seq<Opportunity>>, o: Opportunity)
    ensures Detections(front + [[]]) == Detections(front)
    ensures Occurrences(front + [[]], o) == Occurrences(front, o)
  {
    assert (front + [[]])[..|front|] == front;
  }

  lemma OneMoreDetection(front: seq<seq<Opportunity>>, last: seq<Opportunity>, o: Opportunity)
    requires last != []
    ensures var m := |last| - 1;
            var all, fewer := front + [last], front + [last[..m]];
            && multiset(Detections(all)) == multiset(Detections(fewer)) + multiset{last[m]}
            && (|front|, m) !in Occurrences(fewer, o)
            && Occurrences(all, o) == Occurrences(fewer, o) + if last[m] == o then {(|front|, m)} else {}
  {
    var m := |last| - 1;
    DetectionsOfOneMore(front, last);
    hide Detections;
  }

  lemma DetectionsOfOneMore(front: seq<seq<Opportunity>>, last: seq<Opportunity>)
    requires last != []
    ensures var m := |last| - 1;
            Detections(front + [last]) == Detections(front + [last[..m]]) + [last[m]]
  {
    var m := |last| - 1;
    assert (front + [last])[..|front|] == front && (front + [last[..m]])[..|front|] == front;
    assert last == last[..m] + [last[m]];
  }

  /** Taking any one strategy's answer out takes out exactly what it returned. */
  lemma {:induction false} DetectionsSplit(answers: seq<seq<Opportunity>>, i: nat)
    requires i < |answers|
    ensures multiset(Detections(answers))
            == multiset(answers[i]) + multiset(Detections(answers[..i] + answers[i + 1..]))
  {
    hide Detections;
    var n := |answers| - 1;
    var rest := answers[..i] + answers[i + 1..];
    DetectionsLast(answers);
    if i == n {
      assert rest == answers[..n];
    } else {
      DetectionsSplit(answers[..n], i);
      DetectionsLast(rest);
      assert rest[..n - 1] == answers[..n][..i] + answers[..n][i + 1..] && rest[n - 1] == answers[n];
    }
  }

  lemma DetectionsLast(answers: seq<seq<Opportunity>>)
    requires answers != []
    ensures var n := |answers| - 1;
            multiset(Detections(answers)) == multiset(Detections(answers[..n])) + multiset(answers[n])
  {
  }

  lemma {:induction false} DetectionsComeFrom(answers: seq<seq<Opportunity>>, o: Opportunity)
    requires o in Detections(answers)
    ensures exists j :: 0 <= j < |answers| && o in answers[j]
  {
    var n := |answers| - 1;
    if o !in answers[n] {
      DetectionsComeFrom(answers[..n], o);
    }
  }

  // ---------- The opportunities in a heap ----------

  ghost function Queued(h: Slice): multiset<Opportunity> {
    if h == [] then multiset{} else Queued(h[..|h| - 1]) + multiset{h[|h| - 1].opp}
  }

  lemma {:induction false} QueuedSplit(h: Slice, i: nat)
    requires i < |h|
    ensures Queued(h) == Queued(h[..i] + h[i + 1..]) + multiset{h[i].opp}
  {
    hide Queued;
    var n := |h| - 1;
    var rest := h[..i] + h[i + 1..];
    QueuedLast(h);
    if i == n {
      assert rest == h[..n];
    } else {
      QueuedSplit(h[..n], i);
      QueuedLast(rest);
      assert rest[..n - 1] == h[..n][..i] + h[..n][i + 1..] && rest[n - 1] == h[n];
    }
  }

  lemma QueuedLast(h: Slice)
    requires h != []
    ensures Queued(h) == Queued(h[..|h| - 1]) + multiset{h[|h| - 1].opp}
  {
  }

  /** What is queued does not depend on the order of the slice. */
  lemma {:induction false} QueuedOfPermutation(h: Slice, h': Slice)
    requires multiset(h) == multiset(h')
    ensures Queued(h) == Queued(h')
    decreases |h|
  {
    if h == [] {
      assert |multiset(h')| == 0;
    } else {
      hide Queued;
      var n := |h| - 1;
      MultisetSplit(h, n);
      assert h[n] in multiset(h');
      var i :| 0 <= i < |h'| && h'[i] == h[n];
      MultisetSplit(h', i);
      QueuedSplit(h, n);
      QueuedSplit(h', i);
      var rest, rest' := h[..n] + h[n + 1..], h'[..i] + h'[i + 1..];
      CancelOne(multiset(rest), multiset(rest'), h[n]);
      QueuedOfPermutation(rest, rest');
    }
  }

  lemma CancelOne<T>(a: multiset<T>, b: multiset<T>, x: T)
    requires a + multiset{x} == b + multiset{x}
    ensures a == b
  {
    assert a == (a + multiset{x}) - multiset{x};
    assert b == (b + multiset{x}) - multiset{x};
  }

  lemma MultisetSplit<T>(h: seq<T>, i: nat)
    requires i < |h|
    ensures multiset(h) == multiset(h[..i] + h[i + 1..]) + multiset{h[i]}
  {
    assert h == h[..i] + [h[i]] + h[i + 1..];
  }

  lemma {:induction false} QueuedComesFrom(h: Slice, o: Opportunity)
    requires o in Queued(h)
    ensures exists i :: 0 <= i < |h| && h[i].opp == o
  {
    var n := |h| - 1;
    if o != h[n].opp {
      QueuedComesFrom(h[..n], o);
      var i :| 0 <= i < n && h[..n][i].opp == o;
      assert h[i].opp == o;
    }
  }

  predicate Expired(o: Opportunity, ttl: int, now: int) {
    now - o.detectedAt > ttl
  }

  class Engine {
    const pq: OppHeap
    const ttl: int
    var processed: nat

    ghost predicate Valid()
      reads pq, Elements(pq.h)
    {
      pq.Valid()
    }

    ghost function Queue(): multiset<Opportunity>
      reads pq
    {
      Queued(pq.h)
    }

    constructor (ttl: int)
      ensures Valid() && fresh(pq) && this.ttl == ttl
      ensures Queue() == multiset{} && pq.h == [] && processed == 0
    {
      this.ttl, processed := ttl, 0;
      pq := new OppHeap();
    }

    /** `answers[i]` is what the `i`-th strategy's Detect returns for this update.
        The engine relies on nothing about it, so it may be anything. */
    method ProcessUpdate(answers: seq<seq<Opportunity>>)
      requires Valid()
      modifies this, pq, Elements(pq.h)
      ensures Valid() && fresh(Elements(pq.h) - old(Elements(pq.h)))
      ensures Queue() == old(Queue()) + multiset(Detections(answers))
      ensures forall o :: Queue()[o] == old(Queue())[o]
                + |set j, k | 0 <= j < |answers| && 0 <= k < |answers[j]| && answers[j][k] == o :: (j, k)|
      ensures processed == old(processed) + 1
    {
      hide Queued, Ordered;
      for i := 0 to |answers|
        invariant Valid() && processed == old(processed) && fresh(Elements(pq.h) - old(Elements(pq.h)))
        invariant Queue() == old(Queue()) + multiset(Detections(answers[..i]))
      {
        assert answers[..i + 1][..i] == answers[..i];
        PushAll(answers[i]);
      }
      assert answers[..|answers|] == answers;
      processed := processed + 1;
      forall o
        ensures Queue()[o] == old(Queue())[o]
                  + |set j, k | 0 <= j < |answers| && 0 <= k < |answers[j]| && answers[j][k] == o :: (j, k)|
      {
        DetectionsCount(answers, o);
      }
    }

    method PushAll(opps: seq<Opportunity>)
      requires Valid()
      modifies pq, Elements(pq.h)
      ensures Valid() && fresh(Elements(pq.h) - old(Elements(pq.h)))
      ensures Queue() == old(Queue()) + multiset(opps)
    {
      hide Queued, Ordered;
      ghost var queue := Queue();
      for k := 0 to |opps|
        invariant Valid() && fresh(Elements(pq.h) - old(Elements(pq.h)))
        invariant Queue() == queue + multiset(opps[..k])
      {
        var item := new ScoredOpportunity(opps[k]);
        ghost var h := pq.h;
        pq.HeapPush(item);
        PushedIsQueued(h, pq.h, item);
        assert opps[..k + 1] == opps[..k] + [opps[k]];
      }
      assert opps[..|opps|] == opps;
    }

    /** The best unexpired opportunity, discarding expired ones on the way. */
    method DequeueTop(now: int) returns (cell: OpportunityCell?, ghost discarded: multiset<Opportunity>)
      requires Valid()
      modifies pq, Elements(pq.h)
      ensures Valid() && Elements(pq.h) <= old(Elements(pq.h))
      ensures forall o | o in discarded :: now - o.detectedAt > ttl
      ensures cell == null ==> Queue() == multiset{} && discarded == old(Queue())
      ensures cell != null ==>
                && fresh(cell) && |pq.h| < |old(pq.h)|
                && old(Queue()) == Queue() + discarded + multiset{cell.opp}
                && now - cell.opp.detectedAt <= ttl
                && forall o | o in old(Queue()) && now - o.detectedAt <= ttl :: o.score <= cell.opp.score
    {
      hide Queued, Ordered, OppHeap.Indexed;
      discarded := multiset{};
      NothingQueued();
      while |pq.h| > 0
        invariant Valid() && Elements(pq.h) <= old(Elements(pq.h))
        invariant old(Queue()) == Queue() + discarded && |pq.h| <= |old(pq.h)|
        invariant forall o | o in discarded :: Expired(o, ttl, now)
        decreases |pq.h|
      {
        ghost var h := pq.h;
        var item := pq.HeapPop();
        PoppedWasQueued(h, pq.h, item);
        if now - item.opp.detectedAt > ttl {
          discarded := discarded + multiset{item.opp};
          continue;
        }
        cell := new OpportunityCell(item.opp);
        RootBeatsAllQueued(h);
        return;
      }
      cell := null;
    }
  }

  lemma NothingQueued()
    ensures Queued([]) == multiset{}
  {
  }

  lemma PushedIsQueued(h: Slice, h': Slice, item: ScoredOpportunity)
    requires multiset(h') == multiset(h) + multiset{item}
    ensures Queued(h') == Queued(h) + multiset{item.opp}
    ensures Elements(h') == Elements(h) + {item}
  {
    assert multiset(h + [item]) == multiset(h');
    QueuedOfPermutation(h', h + [item]);
    assert (h + [item])[..|h|] == h;
    forall x
      ensures x in h' <==> x in h || x == item
    {
      assert x in h' <==> x in multiset(h');
    }
  }

  lemma PoppedWasQueued(h: Slice, h': Slice, item: ScoredOpportunity)
    requires multiset(h) == multiset(h') + multiset{item}
    ensures Queued(h) == Queued(h') + multiset{item.opp}
    ensures Elements(h') <= Elements(h) && |h'| < |h|
  {
    PushedIsQueued(h', h, item);
    assert |multiset(h)| == |multiset(h')| + 1;
  }

  lemma RootBeatsAllQueued(h: Slice)
    requires h != [] && Ordered(h, |h|)
    ensures forall o | o in Queued(h) :: o.score <= h[0].opp.score
  {
    forall o | o in Queued(h)
      ensures o.score <= h[0].opp.score
    {
      QueuedComesFrom(h, o);
      var i :| 0 <= i < |h| && h[i].opp == o;
      RootIsMaximum(h, i);
    }
  }
}
