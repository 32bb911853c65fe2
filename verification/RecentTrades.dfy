/** The ring of recent trades (internal/strategy/spatial/correlation.go). */
module RecentTrades {
  import Ring

  datatype Entry = Entry(buyEx: string, sellEx: string)

  /** A stored trade shares an exchange with the candidate pair. */
  predicate Shares(e: Entry, buyEx: string, sellEx: string) {
    e.buyEx == buyEx || e.buyEx == sellEx || e.sellEx == buyEx || e.sellEx == sellEx
  }

  function Matches(entries: seq<Entry>, buyEx: string, sellEx: string): (n: nat)
    ensures n <= |entries|
  {
    if entries == [] then 0
    else
      var k := |entries| - 1;
      Matches(entries[..k], buyEx, sellEx) + if Shares(entries[k], buyEx, sellEx) then 1 else 0
  }

  /** The count is of the entries that have an exchange in common with the pair. */
  lemma {:induction false} MatchesCountsCommon(entries: seq<Entry>, buyEx: string, sellEx: string)
    ensures Matches(entries, buyEx, sellEx)
            == |set i | 0 <= i < |entries| && {entries[i].buyEx, entries[i].sellEx} * {buyEx, sellEx} != {}|
  {
    MatchesCountsSharing(entries, buyEx, sellEx);
    hide Matches, Shares;
    forall i | 0 <= i < |entries|
      ensures Shares(entries[i], buyEx, sellEx) <==>
              {entries[i].buyEx, entries[i].sellEx} * {buyEx, sellEx} != {}
    {
      SharesIffCommon(entries[i], buyEx, sellEx);
    }
    assert (set i | 0 <= i < |entries| && {entries[i].buyEx, entries[i].sellEx} * {buyEx, sellEx} != {})
        == (set i | 0 <= i < |entries| && Shares(entries[i], buyEx, sellEx));
  }

  lemma {:induction false} MatchesCountsSharing(entries: seq<Entry>, buyEx: string, sellEx: string)
    ensures Matches(entries, buyEx, sellEx) == |set i | 0 <= i < |entries| && Shares(entries[i], buyEx, sellEx)|
  {
    hide Shares;
    var all := set i | 0 <= i < |entries| && Shares(entries[i], buyEx, sellEx);
    if entries == [] {
      assert all == {};
    } else {
      var k := |entries| - 1;
      MatchesCountsSharing(entries[..k], buyEx, sellEx);
      var some := set i | 0 <= i < k && Shares(entries[..k][i], buyEx, sellEx);
      assert all == if Shares(entries[k], buyEx, sellEx) then some + {k} else some;
    }
  }

  lemma SharesIffCommon(e: Entry, buyEx: string, sellEx: string)
    ensures Shares(e, buyEx, sellEx) <==> {e.buyEx, e.sellEx} * {buyEx, sellEx} != {}
  {
    var common := {e.buyEx, e.sellEx} * {buyEx, sellEx};
    if Shares(e, buyEx, sellEx) {
      assert e.buyEx in common || e.sellEx in common;
    }
  }

  lemma {:induction false} NoMatches(entries: seq<Entry>, buyEx: string, sellEx: string)
    requires forall i | 0 <= i < |entries| :: {entries[i].buyEx, entries[i].sellEx} !! {buyEx, sellEx}
    ensures Matches(entries, buyEx, sellEx) == 0
  {
    if entries == [] {
    } else {
      var k := |entries| - 1;
      NoMatches(entries[..k], buyEx, sellEx);
      SharesIffCommon(entries[k], buyEx, sellEx);
    }
  }

  lemma {:induction false} MatchesConcat(a: seq<Entry>, b: seq<Entry>, buyEx: string, sellEx: string)
    ensures Matches(a + b, buyEx, sellEx) == Matches(a, buyEx, sellEx) + Matches(b, buyEx, sellEx)
  {
    hide Shares;
    if b == [] {
      assert a + b == a;
    } else {
      var n := |b| - 1;
      MatchesConcat(a, b[..n], buyEx, sellEx);
      assert (a + b)[..|a| + n] == a + b[..n];
    }
  }

  class RecentTradeRing {
    const buf: array<Entry>
    var idx: nat
    var len: nat
    ghost var history: seq<Entry>

    /** The trades still in the ring, oldest first. */
    ghost function Window(): seq<Entry>
      reads this
    {
      Ring.LastN(history, buf.Length)
    }

    ghost predicate Valid()
      reads this, buf
    {
      && buf.Length >= 1 && idx < buf.Length && len <= buf.Length && len == |Window()|
      && (len < buf.Length ==> idx == len && buf[..len] == Window())
      && (len == buf.Length ==> buf[idx..] + buf[..idx] == Window())
    }

    constructor (capacity: nat)
      requires capacity >= 1
      ensures Valid() && fresh(buf) && history == [] && buf.Length == capacity
    {
      buf := new Entry[capacity](_ => Entry("", ""));
      idx, len, history := 0, 0, [];
    }

    method Push(entry: Entry)
      requires Valid()
      modifies this, buf
      ensures Valid() && history == old(history) + [entry]
    {
      ghost var before, at, w := buf[..], idx, Window();
      buf[idx] := entry;
      assert buf[..] == before[at := entry];
      Ring.ModSmall(idx + 1, buf.Length);
      idx := (idx + 1) % buf.Length;
      if len < buf.Length {
        len := len + 1;
      }
      history := history + [entry];
      RingStep(before, at, entry, w, old(len));
      assert Window() == if |w| < buf.Length then w + [entry] else w[1..] + [entry];
      assert buf[..len] == buf[..][..len] && buf[idx..] == buf[..][idx..] && buf[..idx] == buf[..][..idx];
    }

    /** Counting the buffer in storage order counts the window. */
    method CountSameExchange(buyEx: string, sellEx: string) returns (count: nat)
      requires Valid()
      ensures count == Matches(Window(), buyEx, sellEx) <= buf.Length
    {
      count := 0;
      for i := 0 to len
        invariant count == Matches(buf[..i], buyEx, sellEx)
      {
        assert buf[..i + 1][..i] == buf[..i];
        if Shares(buf[i], buyEx, sellEx) {
          count := count + 1;
        }
      }
      if len == buf.Length {
        assert buf[..len] == buf[..idx] + buf[idx..];
        MatchesConcat(buf[..idx], buf[idx..], buyEx, sellEx);
        MatchesConcat(buf[idx..], buf[..idx], buyEx, sellEx);
      }
    }
  }

  /** Writing at `at` and stepping on slides the rotated window by one. */
  lemma RingStep(b: seq<Entry>, at: nat, e: Entry, w: seq<Entry>, len: nat)
    requires at < |b| && len <= |b| && len == |w|
    requires len < |b| ==> at == len && b[..len] == w
    requires len == |b| ==> b[at..] + b[..at] == w
    ensures var c, next := b[at := e], if at + 1 == |b| then 0 else at + 1;
            && (len + 1 < |b| ==> c[..len + 1] == w + [e])
            && (len + 1 == |b| ==> c[next..] + c[..next] == w + [e])
            && (len == |b| ==> c[next..] + c[..next] == w[1..] + [e])
  {
    var c := b[at := e];
    if len == |b| {
      if at + 1 < |b| {
        assert c[at + 1..] == b[at + 1..] && c[..at + 1] == b[..at] + [e];
        assert w[1..] == b[at + 1..] + b[..at];
      } else {
        assert c[0..] + c[..0] == b[..at] + [e] && w[1..] == b[..at];
      }
    }
  }
}
