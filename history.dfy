/**
 * `loadHistory`: the messages of one project, sorted newest first by creation time, cut to
 * the limit, then reversed so that the client gets them oldest first.
 */
module History {
  import opened ChatsModel

  /** The limit `loadHistory` takes when none is given. */
  const DefaultLimit: nat := 100

  /** The limit `joinRoom` asks for. */
  const JoinLimit: nat := 200

  /** `Message.find({ projectId })`, in the order the messages were stored. */
  function ForProject(log: seq<Message>, p: string): (r: seq<Message>)
    ensures |r| <= |log|
    ensures forall m :: m in r <==> m in log && m.projectId == p
    decreases |log|
  {
    if log == [] then []
    else
      assert forall m :: m in log <==> m == log[0] || m in log[1..];
      (if log[0].projectId == p then [log[0]] else []) + ForProject(log[1..], p)
  }

  /** Creation times strictly increase along `ms`. */
  predicate Chronological(ms: seq<Message>) {
    forall i, j :: 0 <= i < j < |ms| ==> ms[i].createdAt < ms[j].createdAt
  }

  /** Creation times never increase along `ms`. */
  predicate NewestFirst(ms: seq<Message>) {
    forall i, j :: 0 <= i < j < |ms| ==> ms[i].createdAt >= ms[j].createdAt
  }

  /** `m` put into the newest-first `ms` before the first message not newer than it. */
  function InsertNewest(m: Message, ms: seq<Message>): (r: seq<Message>)
    requires NewestFirst(ms)
    ensures NewestFirst(r) && multiset(r) == multiset(ms) + multiset{m}
    decreases |ms|
  {
    if ms == [] || m.createdAt >= ms[0].createdAt then
      [m] + ms
    else
      var t := InsertNewest(m, ms[1..]);
      InsertStep(m, ms, t);
      [ms[0]] + t
  }

  /** The newest message of `ms`, newer than `m`, stays first once `m` is put into the rest. */
  lemma InsertStep(m: Message, ms: seq<Message>, t: seq<Message>)
    requires ms != [] && NewestFirst(ms) && m.createdAt < ms[0].createdAt
    requires NewestFirst(t) && multiset(t) == multiset(ms[1..]) + multiset{m}
    ensures NewestFirst([ms[0]] + t) && multiset([ms[0]] + t) == multiset(ms) + multiset{m}
  {
    assert ms == [ms[0]] + ms[1..];
    forall j | 0 <= j < |t| ensures ms[0].createdAt >= t[j].createdAt {
      assert t[j] in multiset(t);
      if t[j] != m {
        assert t[j] in multiset(ms[1..]);
        var k :| 0 <= k < |ms[1..]| && ms[1..][k] == t[j];
        assert ms[k + 1] == t[j];
      }
    }
    var r := [ms[0]] + t;
    forall i, j | 0 <= i < j < |r| ensures r[i].createdAt >= r[j].createdAt {
      if i > 0 { assert r[i] == t[i - 1] && r[j] == t[j - 1]; } else { assert r[j] == t[j - 1]; }
    }
  }

  /** `.sort({ createdAt: -1 })`. */
  function SortNewestFirst(ms: seq<Message>): (r: seq<Message>)
    ensures NewestFirst(r) && multiset(r) == multiset(ms)
    decreases |ms|
  {
    if ms == [] then []
    else
      assert ms == [ms[0]] + ms[1..];
      InsertNewest(ms[0], SortNewestFirst(ms[1..]))
  }

  /** `.limit(limit)`, where a limit of 0 means no limit. */
  function Limit(ms: seq<Message>, limit: nat): (r: seq<Message>)
    ensures |r| == HistorySize(|ms|, limit) && r == ms[..|r|]
  {
    if limit == 0 || |ms| <= limit then ms else ms[..limit]
  }

  /** `msgs.reverse()`. */
  function Reverse<T>(s: seq<T>): (r: seq<T>)
    ensures |r| == |s| && forall i {:trigger r[i]} :: 0 <= i < |s| ==> r[i] == s[|s| - 1 - i]
  {
    seq(|s|, i requires 0 <= i < |s| => s[|s| - 1 - i])
  }

  /** Reversing a non-empty sequence puts its first element last. */
  lemma ReverseCons<T>(s: seq<T>)
    requires s != []
    ensures Reverse(s) == Reverse(s[1..]) + [s[0]]
  {
    var r, t := Reverse(s), Reverse(s[1..]) + [s[0]];
    forall i | 0 <= i < |s| ensures r[i] == t[i] {
      if i < |s| - 1 {
        assert t[i] == Reverse(s[1..])[i] == s[1..][|s| - 2 - i];
      }
    }
  }

  /** `loadHistory(p, limit = 100)` over the stored messages `log`. */
  function LoadHistory(log: seq<Message>, p: string, limit: nat := DefaultLimit): seq<Message> {
    Reverse(Limit(SortNewestFirst(ForProject(log, p)), limit))
  }

  /** How many messages `loadHistory` returns out of `n` for the project. */
  function HistorySize(n: nat, limit: nat): nat {
    if limit == 0 || n <= limit then n else limit
  }

  /** Keeping only the messages of one project keeps the log's order. */
  lemma {:induction false} ForProjectChronological(log: seq<Message>, p: string)
    requires Chronological(log)
    ensures Chronological(ForProject(log, p))
    decreases |log|
  {
    if log != [] {
      var rest := ForProject(log[1..], p);
      ForProjectChronological(log[1..], p);
      forall x | x in rest ensures log[0].createdAt < x.createdAt {
        var k :| 0 <= k < |log[1..]| && log[1..][k] == x;
        assert log[k + 1] == x;
      }
    }
  }

  /** A message older than all of the newest-first `ms` goes at their end. */
  lemma InsertOldest(m: Message, ms: seq<Message>)
    requires NewestFirst(ms) && forall x :: x in ms ==> m.createdAt < x.createdAt
    ensures InsertNewest(m, ms) == ms + [m]
    decreases |ms|
  {
    if ms != [] {
      assert ms[0] in ms;
      InsertOldest(m, ms[1..]);
      assert ms == [ms[0]] + ms[1..];
    }
  }

  /** Sorting messages stored in order, newest first, reverses them. */
  lemma {:induction false} SortChronological(ms: seq<Message>)
    requires Chronological(ms)
    ensures SortNewestFirst(ms) == Reverse(ms)
    decreases |ms|
  {
    if ms != [] {
      SortChronological(ms[1..]);
      var rest := Reverse(ms[1..]);
      forall x | x in rest ensures ms[0].createdAt < x.createdAt {
        var k :| 0 <= k < |rest| && rest[k] == x;
      }
      InsertOldest(ms[0], rest);
      ReverseCons(ms);
    }
  }

  /** Limiting the reversed `f` and reversing back gives the last messages of `f` the limit lets through. */
  lemma ReverseLimit(f: seq<Message>, limit: nat)
    ensures var n := HistorySize(|f|, limit); Reverse(Limit(Reverse(f), limit)) == f[|f| - n..]
  {
    ReversePrefix(f, HistorySize(|f|, limit));
  }

  /** The first `n` of the reversed `f`, reversed back, are the last `n` of `f`. */
  lemma ReversePrefix<T>(f: seq<T>, n: nat)
    requires n <= |f|
    ensures Reverse(Reverse(f)[..n]) == f[|f| - n..]
  {
    forall i | 0 <= i < n ensures Reverse(Reverse(f)[..n])[i] == f[|f| - n..][i] {
      ReversePrefixAt(f, n, i);
    }
  }

  lemma ReversePrefixAt<T>(f: seq<T>, n: nat, i: nat)
    requires i < n <= |f|
    ensures Reverse(Reverse(f)[..n])[i] == f[|f| - n..][i]
  {
    var r := Reverse(f)[..n];
    assert Reverse(r)[i] == r[n - 1 - i];
    assert r[n - 1 - i] == Reverse(f)[n - 1 - i];
  }

  /**
   * Over a log stored in order, `loadHistory(p, limit)` gives the newest
   * `min(limit, count)` messages of project `p` (all of them when the limit is 0), oldest first:
   * every message of `p` it leaves out is older than every message it returns.
   */
  lemma LoadHistoryNewest(log: seq<Message>, p: string, limit: nat)
    requires Chronological(log)
    ensures var f, h := ForProject(log, p), LoadHistory(log, p, limit);
      && |h| == HistorySize(|f|, limit)
      && h == f[|f| - |h|..]
      && Chronological(h)
      && (forall m :: m in h ==> m in log && m.projectId == p)
      && (forall m, x :: m in log && m.projectId == p && m !in h && x in h ==> m.createdAt < x.createdAt)
  {
    var f := ForProject(log, p);
    ForProjectChronological(log, p);
    HistoryIsSuffix(log, p, limit);
    SuffixNewest(f, LoadHistory(log, p, limit));
  }

  /** `loadHistory` returns the last messages of the project, as many as the limit lets through. */
  lemma HistoryIsSuffix(log: seq<Message>, p: string, limit: nat)
    requires Chronological(ForProject(log, p))
    ensures var f, h := ForProject(log, p), LoadHistory(log, p, limit);
      |h| == HistorySize(|f|, limit) && h == f[|f| - |h|..]
  {
    SortChronological(ForProject(log, p));
    ReverseLimit(ForProject(log, p), limit);
  }

  /** The last messages of a log stored in order are in order and newer than the others. */
  lemma SuffixNewest(f: seq<Message>, h: seq<Message>)
    requires Chronological(f) && |h| <= |f| && h == f[|f| - |h|..]
    ensures Chronological(h)
    ensures forall m :: m in h ==> m in f
    ensures forall m, x :: m in f && m !in h && x in h ==> m.createdAt < x.createdAt
  {
    var n := |h|;
    forall m, x | m in f && m !in h && x in h ensures m.createdAt < x.createdAt {
      var i :| 0 <= i < |f| && f[i] == m;
      var j :| 0 <= j < |h| && h[j] == x;
      assert f[|f| - n + j] == x;
    }
    forall m | m in h ensures m in f {
      var j :| 0 <= j < |h| && h[j] == m;
      assert f[|f| - n + j] == m;
    }
  }
}
