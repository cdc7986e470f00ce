/** The operator console's list of recent plate detections: a bounded window
    over everything that has arrived, oldest first, newest last. The console
    keeps it as a React state array and replaces it on every accepted message
    with `[...curr, d].slice(-15)`. */
module DetectionBuffer {

  /** How many detections the console keeps (the `-15` of `slice(-15)`). */
  const Capacity: nat := 15

  /** The list the console starts with before any message has arrived. */
  const Temp: seq<string> := [
    "LSQ5ASH", "LG83A98", "LGE3I9A", "LE83ISA",
    "LG53I9I", "LG43I9I", "IG55I9I", "LE83I9A"
  ]

  function Min(a: int, b: int): int { if a <= b then a else b }

  function Max(a: int, b: int): int { if a <= b then b else a }

  /** `Array.prototype.slice(start)` with one argument: a negative start
      counts from the end and is clamped at 0, a start past the end gives
      the empty list. The result is always a suffix of the input. */
  function JsSlice<T>(s: seq<T>, start: int): (r: seq<T>)
    ensures |r| == if start < 0 then Min(-start, |s|) else |s| - Min(start, |s|)
    ensures r == s[|s| - |r|..]
  {
    var from := if start < 0 then Max(|s| + start, 0) else Min(start, |s|);
    s[from..]
  }

  /** Reference definition of the buffer: drop the oldest entry while there
      are more than k. */
  function Window<T>(h: seq<T>, k: nat): seq<T>
    decreases |h|
  {
    if |h| <= k then h else Window(h[1..], k)
  }

  /** The window holds the last min(k, |h|) entries of h, in the same order. */
  lemma {:induction false} WindowIsLast<T>(h: seq<T>, k: nat)
    ensures |Window(h, k)| == Min(k, |h|)
    ensures Window(h, k) == h[|h| - Min(k, |h|)..]
    decreases |h|
  {
    if |h| > k {
      WindowIsLast(h[1..], k);
      assert h[1..][|h| - 1 - Min(k, |h| - 1)..] == h[|h| - Min(k, |h|)..];
    }
  }

  /** `slice(-k)` is exactly the drop-the-oldest window of size k. */
  lemma SliceIsWindow<T>(h: seq<T>, k: nat)
    requires k > 0
    ensures JsSlice(h, -(k as int)) == Window(h, k)
  {
    WindowIsLast(h, k);
    assert |h| - Min(k, |h|) == Max(|h| - k, 0);
  }

  /** Taking the window first and appending more later gives the same window
      as appending everything and taking the window once. */
  lemma {:induction false} WindowAbsorbs<T>(h: seq<T>, t: seq<T>, k: nat)
    ensures Window(Window(h, k) + t, k) == Window(h + t, k)
    decreases |h|
  {
    if |h| > k {
      WindowAbsorbs(h[1..], t, k);
      assert (h + t)[1..] == h[1..] + t;
    }
  }

  /** The message listener's update of the list: append `d`, keep the last 15. */
  function Push(buf: seq<string>, d: string): (r: seq<string>)
    ensures |r| == Min(Capacity, |buf| + 1)
    ensures r == (buf + [d])[|buf| + 1 - |r|..]
    ensures r[|r| - 1] == d
  {
    JsSlice(buf + [d], -(Capacity as int))
  }

  /** Below capacity nothing is evicted and the list grows by exactly one. */
  lemma PushBelowCapacity(buf: seq<string>, d: string)
    requires |buf| < Capacity
    ensures Push(buf, d) == buf + [d]
  {
  }

  /** At capacity exactly the oldest entry is evicted. */
  lemma PushAtCapacity(buf: seq<string>, d: string)
    requires |buf| == Capacity
    ensures Push(buf, d) == buf[1..] + [d]
  {
    assert (buf + [d])[1..] == buf[1..] + [d];
  }

  /** A run of pushes, in arrival order. */
  function PushAll(buf: seq<string>, ds: seq<string>): (r: seq<string>)
    requires |buf| <= Capacity
    ensures |r| <= Capacity
    decreases |ds|
  {
    if ds == [] then buf else PushAll(Push(buf, ds[0]), ds[1..])
  }

  /** One push is one step of the reference window. */
  lemma PushIsWindow(buf: seq<string>, d: string)
    ensures Push(buf, d) == Window(buf + [d], Capacity)
  {
    SliceIsWindow(buf + [d], Capacity);
  }

  /** Whatever the list held (within capacity), after any run of pushes it is
      the window of the whole arrival history: the last 15 arrivals, in order. */
  lemma {:induction false} PushAllIsWindow(buf: seq<string>, ds: seq<string>)
    requires |buf| <= Capacity
    ensures PushAll(buf, ds) == Window(buf + ds, Capacity)
    decreases |ds|
  {
    if ds == [] {
      assert buf + ds == buf;
    } else {
      var h := buf + [ds[0]];
      PushIsWindow(buf, ds[0]);
      PushAllIsWindow(Push(buf, ds[0]), ds[1..]);
      WindowAbsorbs(h, ds[1..], Capacity);
      assert h + ds[1..] == buf + ds;
    }
  }

  /** One arrival more than fits evicts exactly the oldest entry. */
  lemma OverflowByOne(buf: seq<string>, ds: seq<string>)
    requires 0 < |buf| <= Capacity && |buf| + |ds| == Capacity + 1
    ensures PushAll(buf, ds) == buf[1..] + ds
  {
    var h := buf + ds;
    PushAllIsWindow(buf, ds);
    WindowIsLast(h, Capacity);
    assert Window(h, Capacity) == h[1..];
    assert h[1..] == buf[1..] + ds;
  }

  /** Eight more arrivals on top of the eight seeded plates make sixteen, so
      exactly the oldest seeded plate is evicted. */
  lemma SeedOverflow(ds: seq<string>)
    requires |ds| == 8
    ensures PushAll(Temp, ds) == Temp[1..] + ds
  {
    assert |Temp| == 8;
    OverflowByOne(Temp, ds);
  }
}
