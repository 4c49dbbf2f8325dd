/** Conversation keys and the timestamp ordering shared by the server's fetch and
    the client's reducers. */
module Conversation {
  import opened Types

  /** JavaScript's default string comparison `x < y` (lexicographic by character). */
  predicate Less(x: string, y: string)
    decreases |x|
  {
    if |x| == 0 then |y| > 0
    else if |y| == 0 then false
    else if x[0] != y[0] then x[0] < y[0]
    else Less(x[1..], y[1..])
  }

  /** Exactly one of `x < y`, `x == y`, `y < x` holds. */
  lemma {:induction false} LessTrichotomy(x: string, y: string)
    ensures x == y || Less(x, y) || Less(y, x)
    ensures !(Less(x, y) && Less(y, x))
    ensures x == y ==> !Less(x, y)
    decreases |x|
  {
    if |x| > 0 && |y| > 0 && x[0] == y[0] {
      LessTrichotomy(x[1..], y[1..]);
      if x[1..] == y[1..] {
        assert x == [x[0]] + x[1..] && y == [y[0]] + y[1..];
      }
    }
  }

  /** `[a, b].sort().join('_')`. */
  function Key(a: UserId, b: UserId): string {
    if Less(b, a) then b + "_" + a else a + "_" + b
  }

  /** Both directions of a conversation address the same log. */
  lemma KeySymmetric(a: UserId, b: UserId)
    ensures Key(a, b) == Key(b, a)
  {
    LessTrichotomy(a, b);
  }

  /** The key is not injective: two different pairs can share one log, which is why the
      fetch filters the log by sender and receiver. */
  lemma KeyCollides()
    ensures Key("a_b", "c") == Key("a", "b_c") == "a_b_c"
  {
  }

  ghost predicate SortedByTime(s: seq<Message>) {
    forall i, j :: 0 <= i < j < |s| ==> s[i].timestamp <= s[j].timestamp
  }

  /** Inserts `m` before the first element that is not earlier than it (keeps stability
      for an `m` that preceded all of `s`). */
  function InsertByTime(m: Message, s: seq<Message>): (r: seq<Message>)
    ensures multiset(r) == multiset(s) + multiset{m}
    ensures |r| == |s| + 1
  {
    if |s| == 0 || m.timestamp <= s[0].timestamp then [m] + s
    else
      assert s == [s[0]] + s[1..];
      [s[0]] + InsertByTime(m, s[1..])
  }

  /** `list.sort((a, b) => a.timestamp - b.timestamp)`: a stable sort by timestamp only. */
  function SortByTime(s: seq<Message>): (r: seq<Message>)
    ensures multiset(r) == multiset(s)
    ensures |r| == |s|
  {
    if |s| == 0 then []
    else
      assert s == [s[0]] + s[1..];
      InsertByTime(s[0], SortByTime(s[1..]))
  }

  lemma {:induction false} InsertKeepsSorted(m: Message, s: seq<Message>)
    requires SortedByTime(s)
    ensures SortedByTime(InsertByTime(m, s))
  {
    if |s| > 0 && m.timestamp > s[0].timestamp {
      InsertKeepsSorted(m, s[1..]);
      InsertBounded(m, s[1..], s[0].timestamp);
    }
  }

  /** Inserting keeps every element at or above a bound that `m` and all of `s` respect. */
  lemma {:induction false} InsertBounded(m: Message, s: seq<Message>, lo: int)
    requires lo <= m.timestamp
    requires forall k :: 0 <= k < |s| ==> lo <= s[k].timestamp
    ensures forall k :: 0 <= k < |InsertByTime(m, s)| ==> lo <= InsertByTime(m, s)[k].timestamp
    decreases |s|
  {
    if |s| > 0 && m.timestamp > s[0].timestamp {
      InsertBounded(m, s[1..], lo);
    }
  }

  /** The fetched and reconciled conversation is in non-decreasing timestamp order. */
  lemma {:induction false} SortByTimeSorted(s: seq<Message>)
    ensures SortedByTime(SortByTime(s))
  {
    if |s| > 0 {
      SortByTimeSorted(s[1..]);
      InsertKeepsSorted(s[0], SortByTime(s[1..]));
    }
  }

  /** Sorting an already sorted conversation changes nothing. */
  lemma {:induction false} SortByTimeSortedInput(s: seq<Message>)
    requires SortedByTime(s)
    ensures SortByTime(s) == s
  {
    if |s| > 0 {
      SortByTimeSortedInput(s[1..]);
      assert SortByTime(s[1..]) == s[1..];
      assert s == [s[0]] + s[1..];
    }
  }
}
