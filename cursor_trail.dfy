/** The cursor trail of the landing page: each mouse move appends a point
    stamped with the current time, keeping only the most recent earlier
    points, and a periodic sweep drops the points that have grown too old. */
module CursorTrail {

  /** One trail point at client coordinates (x, y); `id` is the time stamp in
      milliseconds taken when the point was added. */
  datatype TrailPoint = TrailPoint(x: int, y: int, id: int)

  /** How many earlier points a mouse move keeps. */
  const Kept: nat := 8

  /** A point survives a sweep while it is younger than this many milliseconds. */
  const Lifetime: int := 1000

  function Min(a: nat, b: nat): nat {
    if a < b then a else b
  }

  /** `s.slice(-k)` for a positive `k`: the last `k` elements, or all of `s`
      when it is shorter. */
  function LastK<T>(s: seq<T>, k: nat): (r: seq<T>)
    requires k > 0
    ensures |r| == Min(|s|, k)
    ensures r == s[|s| - |r|..]
  {
    if |s| <= k then s else s[|s| - k..]
  }

  /** The trail after a mouse move to (x, y) at time `now`. */
  function Append(prev: seq<TrailPoint>, x: int, y: int, now: int): (r: seq<TrailPoint>)
    ensures |r| <= Kept + 1
    ensures |r| == Min(|prev|, Kept) + 1
    ensures r[|r| - 1] == TrailPoint(x, y, now)
    ensures r[..|r| - 1] == prev[|prev| - Min(|prev|, Kept)..]
  {
    LastK(prev, Kept) + [TrailPoint(x, y, now)]
  }

  /** A point that a sweep at time `now` keeps. */
  predicate Alive(p: TrailPoint, now: int)
    ensures p.id >= now ==> Alive(p, now)
    ensures p.id <= now - Lifetime ==> !Alive(p, now)
  {
    now - p.id < Lifetime
  }

  /** The trail after an expiry sweep at time `now`. */
  function Expire(prev: seq<TrailPoint>, now: int): (r: seq<TrailPoint>)
    ensures |r| <= |prev|
    ensures forall p :: p in r <==> p in prev && Alive(p, now)
  {
    if prev == [] then []
    else if Alive(prev[0], now) then [prev[0]] + Expire(prev[1..], now)
    else Expire(prev[1..], now)
  }

  /** The sweep works point by point: sweeping a concatenation is sweeping
      each part. With `Expire([p])` this fixes the result up to order, so the
      surviving points keep their original order. */
  lemma {:induction false} ExpireConcat(a: seq<TrailPoint>, b: seq<TrailPoint>, now: int)
    ensures Expire(a + b, now) == Expire(a, now) + Expire(b, now)
  {
    if a == [] {
      assert a + b == b;
    } else {
      assert (a + b)[0] == a[0];
      assert (a + b)[1..] == a[1..] + b;
      ExpireConcat(a[1..], b, now);
    }
  }

  /** A single point survives exactly when it is alive. */
  lemma ExpireSingle(p: TrailPoint, now: int)
    ensures Expire([p], now) == if Alive(p, now) then [p] else []
  {
  }

  /** A sweep drops nothing from a trail whose points are all alive. */
  lemma {:induction false} ExpireAllAlive(s: seq<TrailPoint>, now: int)
    requires forall i :: 0 <= i < |s| ==> Alive(s[i], now)
    ensures Expire(s, now) == s
  {
    if s != [] {
      ExpireAllAlive(s[1..], now);
      assert [s[0]] + s[1..] == s;
    }
  }

  /** Sweeping twice at the same time changes nothing the second time. */
  lemma {:induction false} ExpireIdempotent(s: seq<TrailPoint>, now: int)
    ensures Expire(Expire(s, now), now) == Expire(s, now)
  {
    var r := Expire(s, now);
    forall i | 0 <= i < |r| ensures Alive(r[i], now) {
      assert r[i] in r;
    }
    ExpireAllAlive(r, now);
  }

  /** Time stamps never decrease along the trail. */
  predicate Chronological(s: seq<TrailPoint>) {
    forall i, j :: 0 <= i < j < |s| ==> s[i].id <= s[j].id
  }

  /** On a chronological trail the sweep removes a prefix: the oldest points
      go first and the survivors are a suffix of the trail. */
  lemma {:induction false} ExpireDropsPrefix(s: seq<TrailPoint>, now: int) returns (k: nat)
    requires Chronological(s)
    ensures k <= |s|
    ensures Expire(s, now) == s[k..]
    ensures forall i :: 0 <= i < k ==> !Alive(s[i], now)
  {
    if s == [] {
      k := 0;
    } else if Alive(s[0], now) {
      forall i | 0 <= i < |s| ensures Alive(s[i], now) {
        assert s[0].id <= s[i].id;
      }
      ExpireAllAlive(s, now);
      k := 0;
    } else {
      assert Chronological(s[1..]) by {
        forall i, j | 0 <= i < j < |s[1..]| ensures s[1..][i].id <= s[1..][j].id {
          assert s[1..][i] == s[i + 1] && s[1..][j] == s[j + 1];
        }
      }
      var k' := ExpireDropsPrefix(s[1..], now);
      k := k' + 1;
      assert s[1..][k'..] == s[k..];
      forall i | 0 <= i < k ensures !Alive(s[i], now) {
        if i > 0 {
          assert s[1..][i - 1] == s[i];
        }
      }
    }
  }

  /** A mouse move at a time no earlier than every stamp on the trail keeps
      the trail chronological. */
  lemma AppendChronological(prev: seq<TrailPoint>, x: int, y: int, now: int)
    requires Chronological(prev)
    requires forall i :: 0 <= i < |prev| ==> prev[i].id <= now
    ensures Chronological(Append(prev, x, y, now))
  {
    var kept := LastK(prev, Kept);
    ChronologicalSuffix(prev, |prev| - |kept|, now);
    ChronologicalSnoc(kept, TrailPoint(x, y, now));
  }

  /** A suffix of a chronological trail is chronological, and stays below
      any bound on the whole trail's stamps. */
  lemma ChronologicalSuffix(s: seq<TrailPoint>, k: nat, bound: int)
    requires k <= |s|
    requires Chronological(s)
    requires forall i :: 0 <= i < |s| ==> s[i].id <= bound
    ensures Chronological(s[k..])
    ensures forall i :: 0 <= i < |s[k..]| ==> s[k..][i].id <= bound
  {
    forall i, j | 0 <= i < j < |s[k..]| ensures s[k..][i].id <= s[k..][j].id {
      assert s[k..][i] == s[k + i] && s[k..][j] == s[k + j];
    }
    forall i | 0 <= i < |s[k..]| ensures s[k..][i].id <= bound {
      assert s[k..][i] == s[k + i];
    }
  }


  /** Adding a point no older than every point keeps a trail chronological. */
  lemma ChronologicalSnoc(s: seq<TrailPoint>, p: TrailPoint)
    requires Chronological(s)
    requires forall i :: 0 <= i < |s| ==> s[i].id <= p.id
    ensures Chronological(s + [p])
  {
    var r := s + [p];
    forall i, j | 0 <= i < j < |r| ensures r[i].id <= r[j].id {
      assert r[i] == s[i];
    }
  }

}
