/** What a replay should report: the detections of each strategy, their number and
    their total profit. */
module Tallies {
  import opened Types
  import opened Engine

  /** `answers[i][j]` is what strategy `j` detects on frame `i`. */
  type Answers = seq<seq<seq<Opportunity>>>

  type Place = (int, int, int)

  /** Everything detected over the first frames, in order of detection. */
  function AllDetections(answers: Answers): seq<Opportunity> {
    if answers == [] then [] else AllDetections(answers[..|answers| - 1]) + Detections(answers[|answers| - 1])
  }

  /** A total net profit and a number of trades. */
  datatype Tally = Tally(profit: real, count: nat) {
    function Plus(o: Tally): Tally {
      Tally(profit + o.profit, count + o.count)
    }
  }

  function TallyOfOne(o: Opportunity, strategy: string): Tally {
    if o.strategy == strategy then Tally(o.netProfit, 1) else Tally(0.0, 0)
  }

  /** The detections of one strategy. */
  function TallyOf(opps: seq<Opportunity>, strategy: string): Tally {
    if opps == [] then Tally(0.0, 0)
    else TallyOf(opps[..|opps| - 1], strategy).Plus(TallyOfOne(opps[|opps| - 1], strategy))
  }

  lemma {:induction false} TallyOfConcat(a: seq<Opportunity>, b: seq<Opportunity>, s: string)
    ensures TallyOf(a + b, s) == TallyOf(a, s).Plus(TallyOf(b, s))
  {
    hide TallyOfOne;
    if b == [] {
      assert a + b == a;
    } else {
      var n := |b| - 1;
      TallyOfConcat(a, b[..n], s);
      assert (a + b)[..|a| + n] == a + b[..n];
    }
  }

  lemma TallyOfSingle(o: Opportunity, s: string)
    ensures TallyOf([o], s) == TallyOfOne(o, s)
  {
  }

  lemma TallyAround(p: seq<Opportunity>, o: Opportunity, q: seq<Opportunity>, s: string)
    ensures TallyOf(p + [o] + q, s) == TallyOf(p + q, s).Plus(TallyOfOne(o, s))
  {
    hide TallyOf, TallyOfOne;
    TallyOfSingle(o, s);
    TallyOfConcat(p + [o], q, s);
    TallyOfConcat(p, [o], s);
    TallyOfConcat(p, q, s);
  }

  lemma TallySplit(a: seq<Opportunity>, i: nat, s: string)
    requires i < |a|
    ensures TallyOf(a, s) == TallyOf(a[..i] + a[i + 1..], s).Plus(TallyOfOne(a[i], s))
  {
    hide TallyOf, TallyOfOne;
    TallyAround(a[..i], a[i], a[i + 1..], s);
    assert a == a[..i] + [a[i]] + a[i + 1..];
  }

  /** The tally does not depend on the order of detection. */
  lemma {:induction false} TallyOfPermutation(a: seq<Opportunity>, b: seq<Opportunity>, s: string)
    requires multiset(a) == multiset(b)
    ensures TallyOf(a, s) == TallyOf(b, s)
    decreases |a|
  {
    if a == [] {
      assert |multiset(b)| == 0;
    } else {
      hide TallyOf;
      var n := |a| - 1;
      MultisetSplit(a, n);
      assert a[n] in multiset(b);
      var i :| 0 <= i < |b| && b[i] == a[n];
      MultisetSplit(b, i);
      TallySplit(a, n, s);
      TallySplit(b, i, s);
      var rest, rest' := a[..n] + a[n + 1..], b[..i] + b[i + 1..];
      CancelOne(multiset(rest), multiset(rest'), a[n]);
      TallyOfPermutation(rest, rest', s);
    }
  }

  // ---------- The tally in terms of the strategies' answers ----------

  /** Frame, strategy and position of every answer with the given strategy's name. */
  ghost function Places(answers: Answers, s: string): set<Place> {
    set i, j, k | 0 <= i < |answers| && 0 <= j < |answers[i]| && 0 <= k < |answers[i][j]|
                  && answers[i][j][k].strategy == s
                :: (i, j, k)
  }

  ghost predicate AreIn(places: set<Place>, answers: Answers) {
    forall p | p in places :: 0 <= p.0 < |answers| && 0 <= p.1 < |answers[p.0]| && 0 <= p.2 < |answers[p.0][p.1]|
  }

  predicate IsPlace(answers: Answers, p: Place, s: string) {
    && 0 <= p.0 < |answers| && 0 <= p.1 < |answers[p.0]| && 0 <= p.2 < |answers[p.0][p.1]|
    && answers[p.0][p.1][p.2].strategy == s
  }

  ghost predicate SameAt(places: set<Place>, a: Answers, b: Answers) {
    AreIn(places, a) && AreIn(places, b) && forall p | p in places :: a[p.0][p.1][p.2] == b[p.0][p.1][p.2]
  }

  /** The total net profit of the answers at some places. */
  ghost function ProfitOver(places: set<Place>, answers: Answers): real
    requires AreIn(places, answers)
  {
    if places == {} then 0.0
    else
      var p :| p in places;
      answers[p.0][p.1][p.2].netProfit + ProfitOver(places - {p}, answers)
  }

  /** Each place counts once, whatever the order of summation. */
  lemma {:induction false} ProfitSplit(places: set<Place>, answers: Answers, p: Place)
    requires AreIn(places, answers) && p in places
    ensures ProfitOver(places, answers) == answers[p.0][p.1][p.2].netProfit + ProfitOver(places - {p}, answers)
    decreases |places|
  {
    var q :| q in places && ProfitOver(places, answers)
                            == answers[q.0][q.1][q.2].netProfit + ProfitOver(places - {q}, answers);
    if p != q {
      ProfitSplit(places - {q}, answers, p);
      ProfitSplit(places - {p}, answers, q);
      assert places - {q} - {p} == places - {p} - {q};
    }
  }

  lemma {:induction false} ProfitSame(places: set<Place>, a: Answers, b: Answers)
    requires SameAt(places, a, b)
    ensures ProfitOver(places, a) == ProfitOver(places, b)
    decreases |places|
  {
    if places == {} {
    } else {
      var p :| p in places;
      ProfitSplit(places, a, p);
      ProfitSplit(places, b, p);
      ProfitSame(places - {p}, a, b);
    }
  }

  /** What the answers at the places of `s` amount to. */
  ghost function TallyOver(answers: Answers, s: string): Tally {
    Tally(ProfitOver(Places(answers, s), answers), |Places(answers, s)|)
  }

  /** The tally of everything detected counts exactly the answers of that strategy,
      wherever they were given. */
  lemma {:induction false} TallyIsOverPlaces(answers: Answers, s: string)
    ensures TallyOf(AllDetections(answers), s) == TallyOver(answers, s)
    decreases |answers|, LastLen(answers), if LastLen(answers) == 0 then 0 else LastLen(answers[|answers| - 1])
  {
    hide AllDetections, TallyOf, TallyOver;
    if answers == [] {
      NoFrames(s);
    } else {
      var n := |answers| - 1;
      var front, frame := answers[..n], answers[n];
      assert answers == front + [frame];
      if frame == [] {
        TallyIsOverPlaces(front, s);
        EmptyFrame(front, s);
      } else {
        var m := |frame| - 1;
        var others, last := frame[..m], frame[m];
        assert frame == others + [last];
        if last == [] {
          TallyIsOverPlaces(front + [others], s);
          EmptyLastAnswer(front, others, s);
        } else {
          var l := |last| - 1;
          assert last == last[..l] + [last[l]];
          TallyIsOverPlaces(front + [others + [last[..l]]], s);
          OneMoreInTally(front, others, last[..l], last[l], s);
        }
      }
    }
  }

  function LastLen<T>(a: seq<seq<T>>): nat {
    if a == [] then 0 else |a[|a| - 1]|
  }

  lemma NoFrames(s: string)
    ensures TallyOf(AllDetections([]), s) == Tally(0.0, 0) == TallyOver([], s)
  {
  }

  lemma EmptyFrame(front: Answers, s: string)
    ensures AllDetections(front + [[]]) == AllDetections(front)
    ensures TallyOver(front + [[]], s) == TallyOver(front, s)
  {
    var all := front + [[]];
    assert all[..|front|] == front;
    assert Places(all, s) == Places(front, s);
    ProfitSame(Places(front, s), all, front);
  }

  lemma EmptyLastAnswer(front: Answers, others: seq<seq<Opportunity>>, s: string)
    ensures AllDetections(front + [others + [[]]]) == AllDetections(front + [others])
    ensures TallyOver(front + [others + [[]]], s) == TallyOver(front + [others], s)
  {
    hide AllDetections, Places, ProfitOver;
    AllDetectionsLast(front, others);
    AllDetectionsLast(front, others + [[]]);
    assert (others + [[]])[..|others|] == others;
    EmptyAnswerHasNoPlace(front, others, s);
    ProfitSame(Places(front + [others], s), front + [others + [[]]], front + [others]);
  }

  lemma EmptyAnswerHasNoPlace(front: Answers, others: seq<seq<Opportunity>>, s: string)
    ensures Places(front + [others + [[]]], s) == Places(front + [others], s)
    ensures SameAt(Places(front + [others], s), front + [others + [[]]], front + [others])
  {
    var all, fewer := front + [others + [[]]], front + [others];
    forall p: Place
      ensures IsPlace(all, p, s) <==> IsPlace(fewer, p, s)
    {
    }
    PlacesAre(all, s);
    PlacesAre(fewer, s);
    hide Places;
    assert forall p :: p in Places(all, s) <==> p in Places(fewer, s);
  }

  lemma PlacesAre(answers: Answers, s: string)
    ensures forall p :: p in Places(answers, s) <==> IsPlace(answers, p, s)
  {
  }

  lemma AllDetectionsLast(front: Answers, frame: seq<seq<Opportunity>>)
    ensures AllDetections(front + [frame]) == AllDetections(front) + Detections(frame)
  {
    assert (front + [frame])[..|front|] == front;
  }

  lemma OneMoreInTally(front: Answers, others: seq<seq<Opportunity>>, ans: seq<Opportunity>, o: Opportunity, s: string)
    requires TallyOf(AllDetections(front + [others + [ans]]), s) == TallyOver(front + [others + [ans]], s)
    ensures TallyOf(AllDetections(front + [others + [ans + [o]]]), s) == TallyOver(front + [others + [ans + [o]]], s)
  {
    hide AllDetections, TallyOf, TallyOver, TallyOfOne;
    var all, fewer := front + [others + [ans + [o]]], front + [others + [ans]];
    OneMorePlace(front, others, ans, o, s);
    OneMoreOverall(front, others, ans, o);
    TallyOfConcat(AllDetections(fewer), [o], s);
    TallyOfSingle(o, s);
  }

  lemma OneMoreOverall(front: Answers, others: seq<seq<Opportunity>>, ans: seq<Opportunity>, o: Opportunity)
    ensures AllDetections(front + [others + [ans + [o]]]) == AllDetections(front + [others + [ans]]) + [o]
  {
    hide AllDetections, Detections;
    AllDetectionsLast(front, others + [ans]);
    AllDetectionsLast(front, others + [ans + [o]]);
    assert (ans + [o])[..|ans|] == ans;
    DetectionsOfOneMore(others, ans + [o]);
  }

  lemma OneMorePlace(front: Answers, others: seq<seq<Opportunity>>, ans: seq<Opportunity>, o: Opportunity, s: string)
    ensures TallyOver(front + [others + [ans + [o]]], s)
            == TallyOver(front + [others + [ans]], s).Plus(TallyOfOne(o, s))
  {
    hide Places, ProfitOver;
    var all, fewer := front + [others + [ans + [o]]], front + [others + [ans]];
    var p := (|front|, |others|, |ans|);
    var some := Places(fewer, s);
    PlacesWithOneMore(front, others, ans, o, s);
    ProfitSame(some, all, fewer);
    if o.strategy == s {
      ProfitSplit(some + {p}, all, p);
      assert some + {p} - {p} == some;
    }
  }

  lemma PlacesWithOneMore(front: Answers, others: seq<seq<Opportunity>>, ans: seq<Opportunity>, o: Opportunity,
                          s: string)
    ensures var all, fewer := front + [others + [ans + [o]]], front + [others + [ans]];
            var p := (|front|, |others|, |ans|);
            && p !in Places(fewer, s) && all[p.0][p.1][p.2] == o
            && Places(all, s) == (if o.strategy == s then Places(fewer, s) + {p} else Places(fewer, s))
            && SameAt(Places(fewer, s), all, fewer) && AreIn(Places(all, s), all)
  {
    var all, fewer := front + [others + [ans + [o]]], front + [others + [ans]];
    var q := (|front|, |others|, |ans|);
    forall p: Place
      ensures IsPlace(all, p, s) <==> IsPlace(fewer, p, s) || (p == q && o.strategy == s)
    {
    }
    PlacesAre(all, s);
    PlacesAre(fewer, s);
    hide Places;
    assert forall p :: p in Places(all, s) <==> p in Places(fewer, s) || (p == q && o.strategy == s);
  }
}
