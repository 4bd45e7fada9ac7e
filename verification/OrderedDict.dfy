/**
  Python's insertion-ordered dictionary (`dict` and `collections.OrderedDict`), shared by the span-tree
  builder, the tail buffers, the retry tracker and the rate limiter.
 */
module OrderedDicts {

  datatype Option<+T> = None | Some(value: T)

  /** True when no element of `s` occurs twice. */
  ghost predicate Distinct<T>(s: seq<T>) {
    forall i, j :: 0 <= i < j < |s| ==> s[i] != s[j]
  }

  /** `s` with every occurrence of `x` dropped, the rest in order. */
  function Without<T(==,!new)>(s: seq<T>, x: T): (r: seq<T>)
    ensures forall y :: y in r <==> y in s && y != x
    ensures |r| <= |s|
    ensures x !in s ==> r == s
  {
    if s == [] then []
    else if s[0] == x then
      assert s == [s[0]] + s[1..];
      Without(s[1..], x)
    else
      assert s == [s[0]] + s[1..];
      [s[0]] + Without(s[1..], x)
  }

  lemma {:induction false} WithoutDistinct<T(!new)>(s: seq<T>, x: T)
    requires Distinct(s)
    ensures Distinct(Without(s, x))
    ensures |Without(s, x)| == if x in s then |s| - 1 else |s|
  {
    if s != [] {
      assert s == [s[0]] + s[1..];
      WithoutDistinct(s[1..], x);
      assert s[0] !in s[1..] && s[0] !in Without(s[1..], x);
    }
  }

  lemma {:induction false} WithoutConcat<T(!new)>(s: seq<T>, t: seq<T>, x: T)
    ensures Without(s + t, x) == Without(s, x) + Without(t, x)
  {
    if s == [] {
      assert s + t == t;
    } else {
      assert (s + t)[1..] == s[1..] + t;
      WithoutConcat(s[1..], t, x);
    }
  }

  /** Dropping an element keeps the relative order of all the others. */
  lemma {:induction false} WithoutKeepsOrder<T(!new)>(s: seq<T>, x: T, i: nat, j: nat) returns (i': nat, j': nat)
    requires i < j < |Without(s, x)|
    ensures i' < j' < |s|
    ensures s[i'] == Without(s, x)[i] && s[j'] == Without(s, x)[j]
  {
    if s[0] == x {
      i', j' := WithoutKeepsOrder(s[1..], x, i, j);
      i', j' := i' + 1, j' + 1;
    } else if i == 0 {
      assert Without(s, x)[j] in s[1..];
      var k :| 0 <= k < |s[1..]| && s[1..][k] == Without(s, x)[j];
      i', j' := 0, k + 1;
    } else {
      i', j' := WithoutKeepsOrder(s[1..], x, i - 1, j - 1);
      i', j' := i' + 1, j' + 1;
    }
  }

  /** Position `j` of what is left was position `i`, and what stood behind it is left behind it. */
  ghost predicate WasAt<T(!new)>(s: seq<T>, x: T, j: nat, i: nat) {
    i < |s| && j < |Without(s, x)| && s[i] == Without(s, x)[j] && Without(s[i + 1..], x) == Without(s, x)[j + 1..]
  }

  /** One more element in front, dropped or kept. */
  lemma WasAtTail<T(!new)>(s: seq<T>, x: T, j: nat, i: nat)
    requires s != [] && WasAt(s[1..], x, j, i)
    ensures WasAt(s, x, if s[0] == x then j else j + 1, i + 1)
  {
    TailAt(s, i);
    WithoutFirst(s, x);
    if s[0] != x {
      TailAt(Without(s, x), j);
    }
  }

  lemma TailAt<T>(s: seq<T>, i: nat)
    requires i + 1 < |s|
    ensures s[1..][i] == s[i + 1] && s[1..][i + 1..] == s[i + 1 + 1..]
  {
  }

  lemma WithoutFirst<T(!new)>(s: seq<T>, x: T)
    requires s != []
    ensures if s[0] == x then Without(s, x) == Without(s[1..], x)
            else Without(s, x) != [] && Without(s, x)[1..] == Without(s[1..], x)
  {
  }

  /** Dropping an element changes what stands behind any other only by that element. */
  lemma {:induction false} WithoutBehind<T(!new)>(s: seq<T>, x: T, j: nat) returns (i: nat)
    requires j < |Without(s, x)|
    ensures WasAt(s, x, j, i)
  {
    if s[0] != x && j == 0 {
      i := 0;
    } else {
      i := WithoutBehind(s[1..], x, if s[0] == x then j else j - 1);
      WasAtTail(s, x, if s[0] == x then j else j - 1, i);
      i := i + 1;
    }
  }

  /** A list without repetition is no longer than any set that holds its elements. */
  lemma {:induction false} DistinctSize<T(!new)>(s: seq<T>, t: set<T>)
    requires Distinct(s) && forall x :: x in s ==> x in t
    ensures |s| <= |t|
  {
    if s != [] {
      assert s[0] in t && s[0] !in s[1..];
      DistinctSize(s[1..], t - {s[0]});
    }
  }

  /** A list without repetition is as long as the set of its elements. */
  lemma {:induction false} DistinctSetSize<K(!new)>(keys: seq<K>, all: set<K>)
    requires Distinct(keys) && forall k :: k in keys <==> k in all
    ensures |all| == |keys|
  {
    if keys != [] {
      assert keys == [keys[0]] + keys[1..];
      assert keys[0] !in keys[1..];
      DistinctSetSize(keys[1..], all - {keys[0]});
    }
  }

  lemma {:induction false} SubsetSize<T(!new)>(a: set<T>, b: set<T>)
    requires a <= b
    ensures |a| <= |b|
  {
    if a != {} {
      var x :| x in a;
      SubsetSize(a - {x}, b - {x});
    }
  }

  /** Keys in insertion order together with their values. */
  datatype OrderedDict<K(==,!new), V> = OrderedDict(keys: seq<K>, vals: map<K, V>) {

    ghost predicate Valid() {
      Distinct(keys) && forall k :: k in keys <==> k in vals
    }

    function Get(k: K, default: V): V {
      if k in vals then vals[k] else default
    }

    /** `d[k] = v`: a new key goes last, a known key keeps its position. */
    function Put(k: K, v: V): OrderedDict<K, V> {
      OrderedDict(if k in vals then keys else keys + [k], vals[k := v])
    }

    /** `d.pop(k, None)`. */
    function Remove(k: K): OrderedDict<K, V> {
      OrderedDict(Without(keys, k), vals - {k})
    }

    /** `d.move_to_end(k)` for a key that is present. */
    function MoveToEnd(k: K): OrderedDict<K, V>
      requires k in vals
    {
      OrderedDict(Without(keys, k) + [k], vals)
    }

    /** `d.popitem(last=False)`, minus the item itself. */
    function PopFirst(): OrderedDict<K, V>
      requires keys != []
    {
      OrderedDict(keys[1..], vals - {keys[0]})
    }

    /** `while len(d) > max: d.popitem(last=False)`. */
    function TrimTo(max: nat): OrderedDict<K, V>
      decreases |keys|
    {
      if |keys| > max then PopFirst().TrimTo(max) else this
    }

    lemma PutValid(k: K, v: V)
      requires Valid()
      ensures Put(k, v).Valid()
    {
    }

    lemma RemoveValid(k: K)
      requires Valid()
      ensures Remove(k).Valid()
      ensures |Remove(k).keys| == if k in vals then |keys| - 1 else |keys|
    {
      WithoutDistinct(keys, k);
    }

    lemma MoveToEndValid(k: K)
      requires Valid() && k in vals
      ensures MoveToEnd(k).Valid()
      ensures |MoveToEnd(k).keys| == |keys|
    {
      WithoutDistinct(keys, k);
    }

    lemma PopFirstValid()
      requires Valid() && keys != []
      ensures PopFirst().Valid()
    {
      assert keys == [keys[0]] + keys[1..];
    }

    /** Setting a key and making it the last one, whether or not it was there. */
    lemma PutLastKeys(k: K, v: V)
      requires Valid()
      ensures Put(k, v).MoveToEnd(k).keys == Without(keys, k) + [k]
    {
      WithoutConcat(keys, [k], k);
      assert Without([k], k) == [];
      assert Without(keys, k) + [] == Without(keys, k);
    }

    /** Trimming keeps the newest `max` keys. */
    lemma {:induction false} TrimToKeys(max: nat)
      ensures TrimTo(max).keys == if |keys| > max then keys[|keys| - max..] else keys
      decreases |keys|
    {
      if |keys| > max {
        PopFirst().TrimToKeys(max);
      }
    }

    /** Trimming leaves alone what the remaining keys hold. */
    lemma {:induction false} TrimToValid(max: nat)
      requires Valid()
      ensures TrimTo(max).Valid()
      ensures forall k :: k in TrimTo(max).vals ==> k in vals && TrimTo(max).vals[k] == vals[k]
      decreases |keys|
    {
      if |keys| > max {
        PopFirstValid();
        PopFirst().TrimToValid(max);
      }
    }
  }

  function Empty<K(==,!new), V>(): (d: OrderedDict<K, V>)
    ensures d.Valid()
  {
    OrderedDict([], map[])
  }
}
