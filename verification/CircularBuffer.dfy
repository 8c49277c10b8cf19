/** sources/utility/circular_buffer.c: a ring over an array with two flags that tell a full ring from an empty
    one.  Every operation is proved to be an operation on the sequence of its contents. */
module CircularBuffer {
  import opened Prelude
  import opened Words

  // --- what the operations mean on the sequence of contents -------------------------------------------

  /** The last `cap` elements, or all when there are fewer. */
  function LastOf<T>(cap: nat, s: seq<T>): (r: seq<T>)
    ensures |r| == Min(cap, |s|)
  {
    s[|s| - Min(cap, |s|)..]
  }

  /** Adding one element to a bounded queue: in wrap mode a full queue loses its oldest element. */
  function Pushed<T>(cap: nat, wrap: bool, s: seq<T>, x: T): seq<T> {
    if |s| < cap then s + [x] else if wrap && |s| > 0 then s[1..] + [x] else s
  }

  /** Adding one by one in wrap mode keeps the last elements of everything added. */
  lemma PushKeepsLast<T>(cap: nat, s: seq<T>, x: T)
    requires cap > 0
    ensures Pushed(cap, true, LastOf(cap, s), x) == LastOf(cap, s + [x])
  {
    var kept := LastOf(cap, s);
    if |s| < cap {
      assert kept == s;
    } else {
      assert kept[1..] == s[|s| - cap + 1..];
    }
  }

  lemma NextPushed<T>(before: seq<T>, xs: seq<T>, i: nat)
    requires i < |xs|
    ensures before + xs[..i + 1] == before + xs[..i] + [xs[i]]
  {
  }

  lemma NextKept<T>(cap: nat, wrap: bool, before: seq<T>, xs: seq<T>, i: nat)
    requires cap > 0 && i < |xs| && (wrap || |before| + i + 1 <= cap)
    ensures Pushed(cap, wrap, LastOf(cap, before + xs[..i]), xs[i]) == LastOf(cap, before + xs[..i + 1])
  {
    PushKeepsLast(cap, before + xs[..i], xs[i]);
    NextPushed(before, xs, i);
  }

  lemma NextPopped<T>(s: seq<T>, i: nat)
    requires i < |s|
    ensures s[..i] + [s[i..][0]] == s[..i + 1] && s[i..][1..] == s[i + 1..]
  {
  }

  // --- pointers and flags ---------------------------------------------------------------------------------

  /** increase_pointer */
  function Increase(p: nat, cap: nat): (r: nat)
    requires p < cap
    ensures r < cap
  {
    if p == cap - 1 then 0 else p + 1
  }

  /** decrease_pointer */
  function Decrease(p: nat, cap: nat): (r: nat)
    requires p < cap
    ensures r < cap
  {
    if p == 0 then cap - 1 else p - 1
  }

  /** The bookkeeping of a ring, without its elements. */
  datatype Marks = Marks(cap: nat, head: nat, tail: nat, empty: bool, full: bool) {
    predicate InRange() { 0 < cap && head < cap && tail < cap }

    /** Head meets tail exactly when the ring is empty or full, and it is never both. */
    predicate Consistent() { InRange() && !(empty && full) && (head == tail <==> empty || full) }

    /** circular_buffer_size */
    function Size(): nat
      requires InRange()
    {
      if empty then 0 else if full then cap else if tail > head then tail - head else cap - head + tail
    }

    /** circular_buffer_drop_from_end: the tail goes back and the full flag is cleared; the empty flag is not
        looked at. */
    function DropFromEnd(n: nat): (r: Marks)
      requires InRange()
      ensures r.InRange() && r.cap == cap
      decreases n
    {
      if n == 0 then this else this.(tail := Decrease(tail, cap), full := false).DropFromEnd(n - 1)
    }
  }

  /** Where the element `k` behind the oldest stands, and where a reader with 32-bit sums looks for it. */
  function Place(m: Marks, k: nat): nat
    requires m.InRange() && k < m.cap
  {
    if m.head + k < m.cap then m.head + k else m.head + k - m.cap
  }

  function PlaceRead(m: Marks, k: nat): nat
    requires m.InRange() && k < m.cap < WORD_LIMIT
  {
    var at := (m.head + k) % WORD_LIMIT;
    if at < m.cap then at else at - m.cap
  }

  /** Reading by position finds the right place if and only if the sum of head and position does not wrap around. */
  lemma PlaceIsRight(m: Marks, k: nat)
    requires m.InRange() && k < m.cap < WORD_LIMIT
    ensures PlaceRead(m, k) < m.cap
    ensures PlaceRead(m, k) == Place(m, k) <==> m.head + k < WORD_LIMIT
    ensures m.cap <= 0x8000_0000 ==> PlaceRead(m, k) == Place(m, k)
  {
  }

  /** A full ring of 2^31 + 1 elements whose oldest is the last of its storage: the last but one cannot be read. */
  lemma LargeRingIsMisread()
    ensures var m := Marks(0x8000_0001, 0x8000_0000, 0x8000_0000, false, true);
            m.Consistent() && 0x8000_0000 < m.Size()
            && PlaceRead(m, 0x8000_0000) == 0 && Place(m, 0x8000_0000) == 0x7fff_ffff
  {
  }

  lemma SizeBounds(m: Marks)
    requires m.Consistent()
    ensures m.Size() <= m.cap && (m.Size() == 0 <==> m.empty) && (m.Size() == m.cap <==> m.full)
  {
  }

  /** Where the tail goes when `n` elements are dropped from the end. */
  lemma {:induction false} DropMovesTail(m: Marks, n: nat)
    requires m.InRange() && n <= m.cap
    ensures var r := m.DropFromEnd(n);
      && r.head == m.head && r.empty == m.empty && r.full == (m.full && n == 0)
      && r.tail == (if n <= m.tail then m.tail - n else m.tail + m.cap - n)
    decreases n
  {
    if n > 0 {
      DropMovesTail(m.(tail := Decrease(m.tail, m.cap), full := false), n - 1);
    }
  }

  /** Dropping `n` elements from the end leaves a consistent ring that is smaller by `n` if and only if
      `n` is less than the size (or zero).  Dropping all of them makes the ring look full. */
  lemma DropIsSound(m: Marks, n: nat)
    requires m.Consistent()
    ensures m.DropFromEnd(n).Consistent() && m.DropFromEnd(n).Size() == m.Size() - n <==> n < m.Size() || n == 0
    ensures n == m.Size() > 0 ==> m.DropFromEnd(n).Size() == m.cap
  {
    SizeBounds(m);
    if n <= m.Size() {
      DropMovesTail(m, n);
    }
  }

  /** The elements between the marks, the oldest first. */
  function View<T>(s: seq<T>, m: Marks): (r: seq<T>)
    requires m.Consistent() && |s| == m.cap
    ensures |r| == m.Size() <= m.cap
  {
    if m.empty then [] else if m.head < m.tail then s[m.head..m.tail] else s[m.head..] + s[..m.tail]
  }

  /** Writing at the tail and moving it on; a full ring has moved its head on before. */
  lemma PushedView<T>(s: seq<T>, m: Marks, x: T, m': Marks)
    requires m.Consistent() && |s| == m.cap
    requires var head := if m.full then Increase(m.head, m.cap) else m.head;
             var tail := Increase(m.tail, m.cap);
             m' == Marks(m.cap, head, tail, false, tail == head)
    ensures m'.Consistent() && View(s[m.tail := x], m') == Pushed(m.cap, true, View(s, m), x)
  {
  }

  // --- the ring -----------------------------------------------------------------------------------------

  class Ring<T> {
    var head: nat
    var tail: nat
    const storage: array<T>
    var empty: bool
    var full: bool
    const wrap: bool

    function State(): Marks
      reads this
    {
      Marks(storage.Length, head, tail, empty, full)
    }

    ghost predicate Valid()
      reads this
    {
      State().Consistent() && storage.Length < WORD_LIMIT
    }

    /** The elements from the oldest to the newest. */
    function Contents(): (s: seq<T>)
      requires Valid()
      reads this, storage
      ensures |s| == State().Size() <= storage.Length
    {
      View(storage[..], State())
    }

    /** circular_buffer_init over memory that held the marks `was`; `zero` stands for a cleared element. */
    constructor (storage: array<T>, wrap: bool, clear: bool, was: Marks, zero: T)
      requires storage.Length < WORD_LIMIT
      modifies storage
      ensures this.storage == storage && this.wrap == wrap
      ensures clear ==> State() == Marks(storage.Length, 0, 0, true, false)
      ensures clear && storage.Length > 0 ==> Valid() && Contents() == []
      ensures !clear ==> State() == was.(cap := storage.Length) && storage[..] == old(storage[..])
    {
      this.storage := storage;
      this.wrap := wrap;
      head, tail, empty, full := was.head, was.tail, was.empty, was.full;
      new;
      if clear {
        Clear(zero);
      }
    }

    method Clear(zero: T)
      requires storage.Length < WORD_LIMIT
      modifies this, storage
      ensures State() == Marks(storage.Length, 0, 0, true, false)
      ensures storage.Length > 0 ==> Valid() && Contents() == []
    {
      head := 0;
      tail := 0;
      empty := true;
      full := false;
      for i := 0 to storage.Length
        modifies storage
      {
        storage[i] := zero;
      }
    }

    function Size(): (n: nat)
      requires Valid()
      reads this, storage
      ensures n == |Contents()|
    {
      State().Size()
    }

    function FreeSpace(): (n: nat)
      requires Valid()
      reads this, storage
      ensures n + |Contents()| == storage.Length
    {
      storage.Length - Size()
    }

    method Add(x: T) returns (ok: bool)
      requires Valid()
      modifies this, storage
      ensures Valid()
      ensures Contents() == Pushed(storage.Length, wrap, old(Contents()), x)
      ensures ok <==> wrap || |old(Contents())| < storage.Length
    {
      ghost var s, m := storage[..], State();
      if full {
        if wrap {
          head := Increase(head, storage.Length);
        } else {
          return false;
        }
      }
      storage[tail] := x;
      tail := Increase(tail, storage.Length);
      empty := false;
      full := tail == head;
      ok := true;
      PushedView(s, m, x, State());
      assert storage[..] == s[m.tail := x];
    }

    method AddArray(xs: seq<T>) returns (ok: bool)
      requires Valid()
      modifies this, storage
      ensures Valid()
      ensures ok <==> wrap || |old(Contents())| + |xs| <= storage.Length
      ensures wrap ==> Contents() == LastOf(storage.Length, old(Contents()) + xs)
      ensures !wrap ==> Contents() == if ok then old(Contents()) + xs else old(Contents())
    {
      var free := FreeSpace();
      if !wrap && |xs| > free {
        return false;
      }
      AddEach(xs, |xs|);
      ok := true;
      assert xs[..|xs|] == xs;
    }

    /** The loop of the bulk operations. */
    method AddEach(xs: seq<T>, n: nat)
      requires Valid() && n <= |xs| && (wrap || |Contents()| + n <= storage.Length)
      modifies this, storage
      ensures Valid()
      ensures Contents() == LastOf(storage.Length, old(Contents()) + xs[..n])
    {
      ghost var before := Contents();
      assert before + xs[..0] == before;
      for i := 0 to n
        invariant Valid()
        invariant Contents() == LastOf(storage.Length, before + xs[..i])
      {
        var _ := Add(xs[i]);
        NextKept(storage.Length, wrap, before, xs, i);
      }
    }

    method AddAsManyAsPossible(xs: seq<T>) returns (added: nat)
      requires Valid()
      modifies this, storage
      ensures Valid()
      ensures added == Min(|xs|, storage.Length - |old(Contents())|)
      ensures Contents() == old(Contents()) + xs[..added]
    {
      ghost var before := Contents();
      added := FreeSpace();
      if |xs| < added {
        added := |xs|;
      }
      for i := 0 to added
        invariant Valid()
        invariant Contents() == before + xs[..i]
      {
        assert |before + xs[..i]| < storage.Length;
        var _ := Add(xs[i]);
        NextPushed(before, xs, i);
      }
      assert before + xs[..0] == before;
    }

    method Pop() returns (r: Option<T>)
      requires Valid()
      modifies this
      ensures Valid()
      ensures if old(Contents()) == [] then r == None && Contents() == []
        else r == Some(old(Contents())[0]) && Contents() == old(Contents())[1..]
    {
      if empty {
        return None;
      }
      r := Some(storage[head]);
      head := Increase(head, storage.Length);
      full := false;
      empty := tail == head;
    }

    /** circular_buffer_pop_array; with the elements thrown away it is circular_buffer_drop_from_beggining. */
    method PopArray(length: nat) returns (read: nat, out: seq<T>)
      requires Valid()
      modifies this
      ensures Valid()
      ensures read == Min(length, |old(Contents())|)
      ensures out == old(Contents())[..read] && Contents() == old(Contents())[read..]
    {
      ghost var before := Contents();
      read, out := 0, [];
      while read < length
        invariant Valid() && read <= length && read <= |before|
        invariant out == before[..read] && Contents() == before[read..]
      {
        var x := Pop();
        if x == None {
          break;
        }
        NextPopped(before, read);
        out := out + [x.value];
        read := read + 1;
      }
    }

    /** What is read at a position: the element of the contents, unless the 32-bit sum with the head wraps around. */
    function Seen(position: nat): (x: T)
      requires Valid() && position < |Contents()|
      reads this, storage
      ensures head + position < WORD_LIMIT ==> x == Contents()[position]
    {
      PlaceIsRight(State(), position);
      storage[PlaceRead(State(), position)]
    }

    method Peek(position: nat) returns (r: Option<T>)
      requires Valid()
      ensures r == if position < |Contents()| then Some(Seen(position)) else None
      ensures position < |Contents()| && head + position < WORD_LIMIT ==> r == Some(Contents()[position])
    {
      if empty || position >= Size() {
        return None;
      }
      var at := (head + position) % WORD_LIMIT;
      if at < storage.Length {
        r := Some(storage[at]);
      } else {
        r := Some(storage[at - storage.Length]);
      }
    }

    method PeekArray(position: nat, length: nat) returns (read: nat, out: seq<T>)
      requires Valid()
      ensures read == if position >= |Contents()| then 0 else Min(length, |Contents()| - position)
      ensures |out| == read && forall k :: 0 <= k < read ==> out[k] == Seen(position + k)
      ensures read > 0 && head + position + read <= WORD_LIMIT ==> out == Contents()[position..position + read]
    {
      read, out := 0, [];
      while read < length
        invariant read <= length && |out| == read
        invariant read > 0 ==> position + read <= |Contents()|
        invariant forall k :: 0 <= k < read ==> out[k] == Seen(position + k)
      {
        var x := Peek(position + read);
        if x == None {
          break;
        }
        out := out + [x.value];
        read := read + 1;
      }
    }

    /** The bookkeeping after it is that of `Marks.DropFromEnd` whatever `n` is; on the contents it means what
        it says exactly under the condition of `DropIsSound`. */
    method DropFromEnd(n: nat) returns (dropped: nat)
      requires Valid()
      modifies this
      ensures dropped == n && State() == old(State()).DropFromEnd(n)
      ensures n < |old(Contents())| || n == 0 ==>
        Valid() && Contents() == old(Contents())[..|old(Contents())| - n]
    {
      ghost var before, s := State(), Contents();
      DropIsSound(before, n);
      var i := 0;
      while i < n
        invariant 0 <= i <= n && State().InRange()
        invariant State().DropFromEnd(n - i) == before.DropFromEnd(n)
      {
        tail := Decrease(tail, storage.Length);
        full := false;
        i := i + 1;
      }
      dropped := n;
      if 0 < n < before.Size() {
        DropMovesTail(before, n);
        assert |Contents()| == |s| - n;
        forall i | 0 <= i < |s| - n ensures Contents()[i] == s[i] {
        }
      } else if n == 0 {
        assert Contents() == s;
      }
    }
  }
}
