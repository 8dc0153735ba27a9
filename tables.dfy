/**
 * The registry's two dictionaries (`users`, `drivers`) are plain JavaScript
 * objects keyed by socket id. Such an object is a map from keys to values
 * whose keys `for...in` and `Object.entries` visit in insertion order:
 * assigning to an existing key keeps its position, assigning to a new key
 * puts it last, and `delete` drops the key and closes the gap.
 */
module Tables {
  import opened Options

  /** A socket.io connection id. */
  type SocketId = string

  ghost predicate Distinct(s: seq<SocketId>) {
    forall i, j :: 0 <= i < j < |s| ==> s[i] != s[j]
  }

  /** An insertion-ordered dictionary: `keys` is the enumeration order. */
  datatype Table<V> = Table(keys: seq<SocketId>, values: map<SocketId, V>)
  {
    ghost predicate Valid() {
      Distinct(keys) && forall k :: k in values <==> k in keys
    }

    /** `obj[k]`, where an absent key reads as `undefined`. */
    function Get(k: SocketId): (r: Option<V>)
      ensures r.Some? <==> k in values
      ensures r.Some? ==> r.value == values[k]
    {
      if k in values then Some(values[k]) else None
    }

    /** `obj[k] = v`. */
    function Set(k: SocketId, v: V): (r: Table<V>)
      requires Valid()
      ensures r.Valid()
      ensures r.values == values[k := v]
      ensures |r.keys| == if k in values then |keys| else |keys| + 1
      ensures r.keys[..|keys|] == keys
    {
      if k in values then Table(keys, values[k := v])
      else Table(keys + [k], values[k := v])
    }

    /** `delete obj[k]`; a no-op when `k` is absent. */
    function Delete(k: SocketId): (r: Table<V>)
      requires Valid()
      ensures r.Valid()
      ensures r.values == values - {k}
      ensures k in values ==>
        exists i :: 0 <= i < |keys| && keys[i] == k && r.keys == keys[..i] + keys[i + 1..]
      ensures k !in values ==> r == this
    {
      if k in values then
        var i := IndexOf(keys, k);
        DropAt(keys, i);
        Table(keys[..i] + keys[i + 1..], values - {k})
      else
        this
    }
  }

  /** The position of `k` in `s`. */
  function IndexOf(s: seq<SocketId>, k: SocketId): (i: nat)
    requires k in s
    ensures i < |s| && s[i] == k
    ensures forall j :: 0 <= j < i ==> s[j] != k
  {
    if s[0] == k then 0 else 1 + IndexOf(s[1..], k)
  }

  /** Dropping the element at `i` from a duplicate-free sequence keeps it
      duplicate-free and removes exactly that element. */
  lemma DropAt(s: seq<SocketId>, i: nat)
    requires Distinct(s) && i < |s|
    ensures Distinct(s[..i] + s[i + 1..])
    ensures forall x :: x in s[..i] + s[i + 1..] <==> x in s && x != s[i]
  {
    var r := s[..i] + s[i + 1..];
    forall p | 0 <= p < |r| ensures r[p] == s[if p < i then p else p + 1] { }
    forall x | x in s && x != s[i] ensures x in r {
      var q :| 0 <= q < |s| && s[q] == x;
      assert r[if q < i then q else q - 1] == x;
    }
  }
}
