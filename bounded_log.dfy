/** A log that keeps only its most recent entries: the `push` followed by
    `if (log.length > cap) log.shift()` pattern of the chat log and of the game
    history. */
module BoundedLog {

  /** The last `cap` entries of `s` (all of them when there are fewer). */
  function Newest<T>(s: seq<T>, cap: nat): (r: seq<T>)
    ensures |r| == if |s| <= cap then |s| else cap
    ensures forall i :: 0 <= i < |r| ==> r[i] == s[|s| - |r| + i]
  {
    if |s| <= cap then s else s[|s| - cap..]
  }

  /** Push `x`, then drop the oldest entry when the log has grown past `cap`. */
  function Append<T>(log: seq<T>, x: T, cap: nat): (r: seq<T>)
    ensures |log| < cap ==> r == log + [x]
    ensures 0 < cap <= |log| ==> r == log[1..] + [x]
  {
    var pushed := log + [x];
    if |pushed| > cap then pushed[1..] else pushed
  }

  /** One append on a log within its bound keeps the newest `cap` entries of
      the log extended by `x`: the log stays within its bound, the new entry is
      the last one, and only the oldest entry is ever evicted. */
  lemma AppendIsNewest<T>(log: seq<T>, x: T, cap: nat)
    requires |log| <= cap
    ensures Append(log, x, cap) == Newest(log + [x], cap)
    ensures |Append(log, x, cap)| <= cap
    ensures 1 <= cap ==> Append(log, x, cap)[|Append(log, x, cap)| - 1] == x
  {
  }

  /** Appending every entry of `xs` in turn. */
  function AppendAll<T>(log: seq<T>, xs: seq<T>, cap: nat): seq<T>
    decreases |xs|
  {
    if xs == [] then log else AppendAll(Append(log, xs[0], cap), xs[1..], cap)
  }

  lemma NewestOfNewest<T>(a: seq<T>, b: seq<T>, cap: nat)
    ensures Newest(Newest(a, cap) + b, cap) == Newest(a + b, cap)
  {
    var l := Newest(Newest(a, cap) + b, cap);
    var r := Newest(a + b, cap);
    assert |l| == |r|;
    forall i | 0 <= i < |l| ensures l[i] == r[i] {
      var na := Newest(a, cap);
      var k := |na + b| - |l| + i;
      if k < |na| {
        assert l[i] == na[k] == a[|a| - |na| + k];
        assert r[i] == (a + b)[|a + b| - |r| + i];
      } else {
        assert l[i] == b[k - |na|];
      }
    }
  }

  lemma ConsSplit<T>(log: seq<T>, xs: seq<T>)
    requires xs != []
    ensures log + [xs[0]] + xs[1..] == log + xs
  {
    assert [xs[0]] + xs[1..] == xs;
  }

  /** However many entries are appended, the log holds exactly the newest `cap`
      entries of everything it ever received, in order. */
  lemma {:induction false} AppendAllIsNewest<T>(log: seq<T>, xs: seq<T>, cap: nat)
    requires |log| <= cap
    ensures AppendAll(log, xs, cap) == Newest(log + xs, cap)
    decreases |xs|
  {
    if xs == [] {
      assert log + xs == log;
    } else {
      var next := Append(log, xs[0], cap);
      assert AppendAll(log, xs, cap) == AppendAll(next, xs[1..], cap);
      AppendIsNewest(log, xs[0], cap);
      AppendAllIsNewest(next, xs[1..], cap);
      NewestOfNewest(log + [xs[0]], xs[1..], cap);
      ConsSplit(log, xs);
    }
  }
}
