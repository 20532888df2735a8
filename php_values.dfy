/**
 * The PHP values that travel through the job queue: job bodies, decoded
 * payloads and raw broker records. A PHP array is an ordered list of
 * key/value entries; `Lookup` reads the first entry with a key, as PHP's
 * `$a[$k]` does on an array whose keys are unique.
 */
module PhpValues {
  import opened Wrappers

  datatype Key = IntKey(i: int) | StrKey(s: string)

  datatype Value =
    | Null
    | Bool(b: bool)
    | Int(i: int)
    | Str(s: string)
    | Array(entries: seq<(Key, Value)>)

  type PhpArray = seq<(Key, Value)>

  predicate HasKey(a: PhpArray, k: Key) {
    exists i :: 0 <= i < |a| && a[i].0 == k
  }

  /** `$a[$k]`, or None when the key is absent. */
  function Lookup(a: PhpArray, k: Key): (r: Option<Value>)
    ensures r.Some? <==> HasKey(a, k)
    ensures r.Some? ==> (k, r.value) in a
  {
    if |a| == 0 then None
    else if a[0].0 == k then Some(a[0].1)
    else
      var r := Lookup(a[1..], k);
      assert HasKey(a[1..], k) ==> HasKey(a, k) by {
        if HasKey(a[1..], k) {
          var i :| 0 <= i < |a[1..]| && a[1..][i].0 == k;
          assert a[i + 1].0 == k;
        }
      }
      assert HasKey(a, k) ==> HasKey(a[1..], k) by {
        if HasKey(a, k) {
          var i :| 0 <= i < |a| && a[i].0 == k;
          assert i > 0 && a[1..][i - 1].0 == k;
        }
      }
      r
  }

  /** The entry at `i` is what `$a[$k]` reads when no earlier entry has its key. */
  lemma {:induction false} LookupAt(a: PhpArray, i: nat)
    requires i < |a|
    requires forall j :: 0 <= j < i ==> a[j].0 != a[i].0
    ensures Lookup(a, a[i].0) == Some(a[i].1)
  {
    if i > 0 {
      assert a[1..][i - 1] == a[i];
      LookupAt(a[1..], i - 1);
    }
  }

  /** PHP's `isset($a[$k])`: the key is present and its value is not null. */
  predicate IsSet(a: PhpArray, k: Key) {
    Lookup(a, k).Some? && Lookup(a, k).value != Null
  }

  /** `$a[$k] = $v`: overwrite the entry in place, or append a new one. */
  function Assign(a: PhpArray, k: Key, v: Value): PhpArray {
    if |a| == 0 then [(k, v)]
    else if a[0].0 == k then [(k, v)] + a[1..]
    else [a[0]] + Assign(a[1..], k, v)
  }

  /** After `$a[$k] = $v`, `$a[$k]` reads `v` and every other key reads as before. */
  lemma {:induction false} AssignLookup(a: PhpArray, k: Key, v: Value)
    ensures Lookup(Assign(a, k, v), k) == Some(v)
    ensures forall k' :: k' != k ==> Lookup(Assign(a, k, v), k') == Lookup(a, k')
  {
    if |a| > 0 && a[0].0 != k {
      var r := Assign(a, k, v);
      assert r[1..] == Assign(a[1..], k, v);
      AssignLookup(a[1..], k, v);
    } else if |a| > 0 {
      assert Assign(a, k, v)[1..] == a[1..];
    }
  }

  /** Assigning a key the array lacks appends one entry. */
  lemma {:induction false} AssignAbsent(a: PhpArray, k: Key, v: Value)
    requires !HasKey(a, k)
    ensures Assign(a, k, v) == a + [(k, v)]
  {
    if |a| > 0 {
      assert a[0].0 != k;
      forall i | 0 <= i < |a[1..]| ensures a[1..][i].0 != k {
        assert a[1..][i] == a[i + 1];
      }
      assert Assign(a, k, v) == [a[0]] + Assign(a[1..], k, v);
      AssignAbsent(a[1..], k, v);
      assert a == [a[0]] + a[1..];
    }
  }

  /** The entries of `b` whose key does not occur in `a`, in order. */
  function KeysNotIn(b: PhpArray, a: PhpArray): (r: PhpArray)
    ensures forall k :: !HasKey(a, k) ==> Lookup(r, k) == Lookup(b, k)
    ensures forall k :: HasKey(a, k) ==> !HasKey(r, k)
  {
    if |b| == 0 then []
    else if HasKey(a, b[0].0) then KeysNotIn(b[1..], a)
    else
      var r := [b[0]] + KeysNotIn(b[1..], a);
      assert r[1..] == KeysNotIn(b[1..], a);
      r
  }

  lemma {:induction false} LookupAppend(a: PhpArray, c: PhpArray, k: Key)
    ensures Lookup(a + c, k) == if HasKey(a, k) then Lookup(a, k) else Lookup(c, k)
  {
    if |a| > 0 {
      assert (a + c)[1..] == a[1..] + c;
      if a[0].0 != k {
        LookupAppend(a[1..], c, k);
      }
    } else {
      assert a + c == c;
    }
  }

  /**
   * PHP's array union `$a + $b`: every key of `a` keeps its value from `a`
   * (even a null one); keys only in `b` are taken from `b`.
   */
  function Union(a: PhpArray, b: PhpArray): (r: PhpArray)
    ensures forall k {:trigger Lookup(r, k)} ::
      Lookup(r, k) == if HasKey(a, k) then Lookup(a, k) else Lookup(b, k)
  {
    var c := KeysNotIn(b, a);
    forall k ensures Lookup(a + c, k) == if HasKey(a, k) then Lookup(a, k) else Lookup(b, k) {
      LookupAppend(a, c, k);
    }
    a + c
  }
}
