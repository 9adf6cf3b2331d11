/** The standard library's growable array, and the loop `for .. yield` that is lowered onto it. */
module GrowableArray {
  import opened Powers
  import opened Wrappers

  // ---------- sizes ----------

  /** Length, capacity, and how many elements all reallocations so far have carried over. */
  datatype Sizes = Sizes(len: nat, cap: nat, moved: nat)

  /** The first block holds eight elements, or one if elements are large; later blocks double. */
  function NextCap(cap: nat, elementSize: nat): (r: nat)
    ensures cap < r
  {
    if cap == 0 then (if elementSize >= 1024 then 1 else 8) else cap * 2
  }

  function PushOne(s: Sizes, elementSize: nat): Sizes {
    if s.len == s.cap then Sizes(s.len + 1, NextCap(s.cap, elementSize), s.moved + s.len)
    else Sizes(s.len + 1, s.cap, s.moved)
  }

  function Pushes(s: Sizes, n: nat, elementSize: nat): Sizes {
    if n == 0 then s else PushOne(Pushes(s, n - 1, elementSize), elementSize)
  }

  /** The first capacity that is not zero. */
  function FirstCap(cap: nat, elementSize: nat): nat {
    if cap == 0 then NextCap(0, elementSize) else cap
  }

  /** A new array of no capacity grows to the least power of two with room for its elements, from eight up if they are
      small and from one up if they are large. */
  lemma {:induction false} CapacityIsLeastPower(n: nat, elementSize: nat) returns (k: nat)
    requires n > 0
    ensures Pushes(Sizes(0, 0, 0), n, elementSize).cap == Power(2, k) >= n
    ensures elementSize < 1024 ==> k >= 3 && (k == 3 || Power(2, k - 1) < n)
    ensures elementSize >= 1024 ==> k == 0 || Power(2, k - 1) < n
  {
    if n == 1 {
      assert Pushes(Sizes(0, 0, 0), 0, elementSize) == Sizes(0, 0, 0);
      k := if elementSize < 1024 then 3 else 0;
    } else {
      k := CapacityIsLeastPower(n - 1, elementSize);
      PushesMoveFew(0, n - 1, elementSize);
      if Power(2, k) < n { k := k + 1; }
    }
  }

  /** Main result on cost: n pushes onto a new array of any capacity never exceed the capacity, carry over exactly the
      capacity gained since the first block, and in total fewer than 2n elements. */
  lemma {:induction false} PushesMoveFew(cap: nat, n: nat, elementSize: nat)
    ensures var s, first := Pushes(Sizes(0, cap, 0), n, elementSize), FirstCap(cap, elementSize);
      && s.len == n <= s.cap
      && (n > 0 ==> s.moved == s.cap - first && (s.cap == first || s.cap < 2 * n) && s.moved < 2 * n)
      && (n <= cap ==> s == Sizes(n, cap, 0))
  {
    if n > 0 { PushesMoveFew(cap, n - 1, elementSize); }
  }

  // ---------- the array ----------

  /** A block of memory with room for n elements that starts with the elements of the old one. */
  method Reallocate<T(0)>(from: array<T>, n: nat) returns (block: array<T>)
    requires from.Length <= n
    ensures fresh(block) && block.Length == n && block[..from.Length] == from[..]
  {
    block := new T[n];
    for k := 0 to from.Length
      invariant block[..k] == from[..k]
    {
      block[k] := from[k];
    }
  }

  class Array<T(0)> {
    const elementSize: nat
    var len: nat
    var cap: nat
    var data: array?<T>
    ghost var moved: nat

    ghost predicate Valid()
      reads this
    {
      && len <= cap
      && (data == null <==> cap == 0)
      && (data != null ==> data.Length == cap)
    }

    ghost function Contents(): seq<T>
      requires Valid()
      reads this, data
    {
      if data == null then [] else data[..len]
    }

    ghost function CurrentSizes(): Sizes
      reads this
    {
      Sizes(len, cap, moved)
    }

    constructor (elementSize: nat, cap: nat)
      ensures Valid() && this.elementSize == elementSize && CurrentSizes() == Sizes(0, cap, 0) && Contents() == []
      ensures data != null ==> fresh(data)
    {
      this.elementSize := elementSize;
      this.len, this.cap, this.moved := 0, cap, 0;
      if cap == 0 {
        this.data := null;
      } else {
        var block := new T[cap];
        this.data := block;
      }
    }

    /** Err is the crash on an index out of bounds. */
    method Get(index: nat) returns (r: Result<T>)
      requires Valid()
      ensures r == if index < |Contents()| then Ok(Contents()[index]) else Err
    {
      if index >= len {
        return Err;
      }
      r := Ok(data[index]);
    }

    method Set(index: nat, elem: T) returns (ok: bool)
      requires Valid()
      modifies data
      ensures Valid() && ok == (index < |old(Contents())|)
      ensures Contents() == if ok then old(Contents())[index := elem] else old(Contents())
    {
      ok := index < len;
      if ok {
        data[index] := elem;
      }
    }

    method Grow()
      requires Valid() && len == cap
      modifies this
      ensures Valid() && fresh(data) && Contents() == old(Contents())
      ensures CurrentSizes() == Sizes(old(len), NextCap(old(cap), elementSize), old(moved) + old(len))
    {
      var newCap := NextCap(cap, elementSize);
      var block: array<T>;
      if data == null {
        block := new T[newCap];
      } else {
        block := Reallocate(data, newCap);
        moved := moved + len;
      }
      data := block;
      cap := newCap;
    }

    /** Appends an element, in a bigger block if this one is full. */
    method Push(elem: T)
      requires Valid()
      modifies this, data
      ensures Valid() && (fresh(data) || data == old(data))
      ensures Contents() == old(Contents()) + [elem]
      ensures CurrentSizes() == PushOne(old(CurrentSizes()), elementSize)
    {
      var startLength := len;
      ghost var before := Contents();
      if startLength == cap {
        Grow();
      }
      len := startLength + 1;
      assert Contents()[..startLength] == before;
      var ok := Set(startLength, elem);
    }
  }

  // ---------- for .. yield ----------

  /** What the loop has done for the first elements: the yielded values, and the variables that its body works on. */
  ghost function Looped<T, U, S>(body: (S, T) -> (U, S), start: S, xs: seq<T>): (r: (seq<U>, S))
    ensures |r.0| == |xs|
  {
    if xs == [] then ([], start)
    else
      var (ys, s) := Looped(body, start, xs[..|xs| - 1]);
      var (y, next) := body(s, xs[|xs| - 1]);
      (ys + [y], next)
  }

  lemma LoopedNext<T, U, S>(body: (S, T) -> (U, S), start: S, xs: seq<T>, k: nat)
    requires k < |xs|
    ensures var before, step := Looped(body, start, xs[..k]), body(Looped(body, start, xs[..k]).1, xs[k]);
      Looped(body, start, xs[..k + 1]) == (before.0 + [step.0], step.1)
  {
    assert xs[..k + 1][..k] == xs[..k];
  }

  /** Each element yields what the body makes of it and of the variables as the elements before it left them. */
  lemma {:induction false} LoopedAt<T, U, S>(body: (S, T) -> (U, S), start: S, xs: seq<T>, k: nat)
    requires k < |xs|
    ensures Looped(body, start, xs).0[k] == body(Looped(body, start, xs[..k]).1, xs[k]).0
    decreases |xs|
  {
    if k < |xs| - 1 {
      assert xs[..|xs| - 1][..k] == xs[..k];
      LoopedAt(body, start, xs[..|xs| - 1], k);
    }
  }

  /** With a body that leaves the variables alone the loop applies it to each element. */
  lemma {:induction false} PureLoopMaps<T, U, S>(body: (S, T) -> (U, S), start: S, xs: seq<T>)
    requires forall x :: x in xs ==> body(start, x).1 == start
    ensures Looped(body, start, xs).1 == start
    ensures forall k :: 0 <= k < |xs| ==> Looped(body, start, xs).0[k] == body(start, xs[k]).0
  {
    if xs != [] { PureLoopMaps(body, start, xs[..|xs| - 1]); }
  }

  /** The loop that `for .. yield` is lowered to: the body runs on each element in order, its values go into an array
      allocated once at the input's length, which never grows. */
  method ForYield<T(0), U(0), S>(iteree: Array<T>, body: (S, T) -> (U, S), start: S, elementSize: nat)
    returns (r: Array<U>, end: S)
    requires iteree.Valid()
    ensures r.Valid() && fresh(r) && (r.Contents(), end) == Looped(body, start, iteree.Contents())
    ensures r.CurrentSizes() == Sizes(iteree.len, iteree.len, 0)
  {
    var itIndex := 0;
    var itereeLength := iteree.len;
    r := new Array<U>(elementSize, itereeLength);
    end := start;
    ghost var input := iteree.Contents();
    while itIndex < itereeLength
      invariant itIndex <= itereeLength == |input| && iteree.Valid() && iteree.Contents() == input
      invariant r.Valid() && fresh(r) && (r.data != null ==> fresh(r.data))
      invariant (r.Contents(), end) == Looped(body, start, input[..itIndex])
      invariant r.CurrentSizes() == Sizes(itIndex, itereeLength, 0)
    {
      var element := iteree.Get(itIndex);
      var (blockValue, next) := body(end, element.value);
      LoopedNext(body, start, input, itIndex);
      r.Push(blockValue);
      end := next;
      itIndex := itIndex + 1;
    }
    assert input[..itIndex] == input;
  }
}
