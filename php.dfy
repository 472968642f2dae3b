/**
  The PHP values a configuration is made of, and the few built-in array and
  string operations the configuration engine relies on.

  A PHP array is an ordered dictionary whose keys are integers or strings.  It
  is modelled as a sequence of (key, value) pairs in insertion order; the
  arrays the engine builds never hold a key twice (DistinctKeys), and every
  operation below keeps it that way.
*/
module Php {

  datatype Option<+T> = None | Some(value: T)

  datatype Result<+T> = Success(value: T) | Failure(error: string)

  /** An array key: PHP coerces every other key type to one of these two. */
  datatype Key = IntKey(n: int) | StrKey(s: string)

  /** A configuration value.  Floats and objects are not modelled. */
  datatype Value =
    | Null
    | Bool(b: bool)
    | Int(i: int)
    | Str(s: string)
    | Arr(entries: seq<(Key, Value)>)

  type Entries = seq<(Key, Value)>

  /** PHP's conversion to bool, as used by `if ($x)` and `!$x`. */
  predicate Truthy(v: Value)
  {
    match v
    case Null => false
    case Bool(b) => b
    case Int(i) => i != 0
    case Str(s) => s != "" && s != "0"
    case Arr(es) => es != []
  }

  /** `if ($name)` on an optional string argument. */
  predicate HasName(name: Option<string>)
  {
    name.Some? && name.value != "" && name.value != "0"
  }

  /** `isset($a[$k])`: the element exists and is not null. */
  predicate IsSet(o: Option<Value>)
  {
    o.Some? && !o.value.Null?
  }

  predicate DistinctKeys(a: Entries)
  {
    forall i, j | 0 <= i < j < |a| :: a[i].0 != a[j].0
  }

  predicate HasKey(a: Entries, k: Key)
  {
    exists i | 0 <= i < |a| :: a[i].0 == k
  }

  /** Position of the first entry with key `k`. */
  function Find(a: Entries, k: Key): (r: Option<nat>)
    ensures r.Some? ==> r.value < |a| && a[r.value].0 == k
    ensures r.Some? ==> forall j | 0 <= j < r.value :: a[j].0 != k
    ensures r.None? <==> !HasKey(a, k)
  {
    if a == [] then None
    else if a[0].0 == k then Some(0)
    else
      match Find(a[1..], k)
      case None =>
        assert forall j | 1 <= j < |a| :: a[j] == a[1..][j - 1];
        None
      case Some(i) => Some(i + 1)
  }

  /** `array_key_exists($k, $a) ? $a[$k] : <absent>` */
  function Get(a: Entries, k: Key): (r: Option<Value>)
    ensures r.Some? <==> HasKey(a, k)
    ensures r.Some? ==> exists i | 0 <= i < |a| :: a[i] == (k, r.value)
  {
    match Find(a, k)
    case None => None
    case Some(i) => Some(a[i].1)
  }

  /** `array_key_exists($k, $m) ? $m[$k] : <absent>` for a dictionary keyed by strings. */
  function Lookup(m: map<string, Value>, k: string): (r: Option<Value>)
    ensures r.Some? <==> k in m
    ensures r.Some? ==> r.value == m[k]
  {
    if k in m then Some(m[k]) else None
  }

  /** `$a[$k] = $v`: replaces in place when `k` is present, else appends. */
  function Put(a: Entries, k: Key, v: Value): (r: Entries)
    ensures HasKey(a, k) ==> |r| == |a|
    ensures !HasKey(a, k) ==> r == a + [(k, v)]
    ensures forall i | 0 <= i < |a| :: r[i].0 == a[i].0 && (a[i].0 != k ==> r[i] == a[i])
  {
    match Find(a, k)
    case Some(i) => a[i := (k, v)]
    case None => a + [(k, v)]
  }

  /**
    The key `$a[] = $v` uses: one more than the largest integer key, or 0
    when there is none (PHP before 8.3 also uses 0 when every integer key
    is negative).
  */
  function NextIndex(a: Entries): (r: int)
    ensures r >= 0
    ensures forall j | 0 <= j < |a| && a[j].0.IntKey? :: a[j].0.n < r
    ensures r == 0 || HasKey(a, IntKey(r - 1))
  {
    if a == [] then 0
    else
      var rest := NextIndex(a[1..]);
      assert forall j | 1 <= j < |a| :: a[j] == a[1..][j - 1];
      if a[0].0.IntKey? && a[0].0.n >= rest then a[0].0.n + 1 else rest
  }

  /** `$a[] = $v` */
  function Append(a: Entries, v: Value): (r: Entries)
    ensures |r| == |a| + 1 && r[..|a|] == a
    ensures r[|a|].0.IntKey? && !HasKey(a, r[|a|].0) && r[|a|].1 == v
  {
    a + [(IntKey(NextIndex(a)), v)]
  }

  /** `unset($a[$k])` */
  function Unset(a: Entries, k: Key): (r: Entries)
    ensures !HasKey(a, k) ==> r == a
  {
    match Find(a, k)
    case Some(i) => a[..i] + a[i + 1..]
    case None => a
  }

  /** The values stored under integer keys, in array order. */
  function IntValues(a: Entries): seq<Value>
  {
    if a == [] then []
    else if a[0].0.IntKey? then [a[0].1] + IntValues(a[1..])
    else IntValues(a[1..])
  }

  /** The string keys of an array, as a set. */
  function StrKeys(a: Entries): set<Key>
  {
    set i | 0 <= i < |a| && a[i].0.StrKey? :: a[i].0
  }

  /* ----- Facts about the array operations ----- */

  /** Find only looks at keys: two arrays with the same keys agree on it. */
  lemma FindSameKeys(a: Entries, b: Entries, k: Key)
    requires |a| == |b|
    requires forall i | 0 <= i < |a| :: a[i].0 == b[i].0
    ensures Find(a, k) == Find(b, k)
  {
    if Find(a, k).Some? {
      assert b[Find(a, k).value].0 == k;
    }
  }

  /** In an array without repeated keys, Get finds the entry at any position. */
  lemma GetAt(a: Entries, j: nat)
    requires DistinctKeys(a) && j < |a|
    ensures Get(a, a[j].0) == Some(a[j].1)
  {
  }

  lemma GetPutSame(a: Entries, k: Key, v: Value)
    ensures Get(Put(a, k, v), k) == Some(v)
  {
    var r := Put(a, k, v);
    match Find(a, k)
    case Some(i) =>
      FindSameKeys(a, r, k);
    case None =>
      assert r[|a|].0 == k;
      assert Find(r, k) == Some(|a|);
  }

  lemma GetPutOther(a: Entries, k: Key, v: Value, k': Key)
    requires k' != k
    ensures Get(Put(a, k, v), k') == Get(a, k')
  {
    var r := Put(a, k, v);
    match Find(a, k)
    case Some(i) =>
      FindSameKeys(a, r, k');
    case None =>
      assert forall j | 0 <= j < |a| :: r[j] == a[j];
      if Find(a, k').Some? {
        assert Find(r, k') == Find(a, k');
      } else {
        assert !HasKey(r, k');
      }
  }

  /** Appending never disturbs a key that is already present. */
  lemma GetAppendPresent(a: Entries, v: Value, k: Key)
    requires HasKey(a, k)
    ensures Get(Append(a, v), k) == Get(a, k)
  {
    var r := Append(a, v);
    var i := Find(a, k).value;
    assert r[i] == a[i];
    assert forall j | 0 <= j < i :: r[j] == a[j];
    assert Find(r, k) == Some(i);
  }

  /** Appending never creates a string key. */
  lemma GetAppendStr(a: Entries, v: Value, k: Key)
    requires k.StrKey?
    ensures Get(Append(a, v), k) == Get(a, k)
  {
    if HasKey(a, k) {
      GetAppendPresent(a, v, k);
    } else {
      var r := Append(a, v);
      assert forall j | 0 <= j < |a| :: r[j] == a[j];
      assert !HasKey(r, k);
    }
  }

  lemma PutDistinct(a: Entries, k: Key, v: Value)
    requires DistinctKeys(a)
    ensures DistinctKeys(Put(a, k, v))
  {
    var r := Put(a, k, v);
    if Find(a, k).Some? {
      assert forall j | 0 <= j < |a| :: r[j].0 == a[j].0;
    } else {
      assert forall j | 0 <= j < |a| :: r[j] == a[j];
    }
  }

  lemma AppendDistinct(a: Entries, v: Value)
    requires DistinctKeys(a)
    ensures DistinctKeys(Append(a, v))
  {
  }

  /** After `unset` the key is gone. */
  lemma UnsetRemoves(a: Entries, k: Key)
    requires DistinctKeys(a)
    ensures !HasKey(Unset(a, k), k)
  {
    match Find(a, k)
    case None =>
    case Some(i) =>
      var r := a[..i] + a[i + 1..];
      forall j | 0 <= j < |r| ensures r[j].0 != k {
        if j < i { assert r[j] == a[j]; } else { assert r[j] == a[j + 1]; }
      }
  }

  lemma IntValuesConcat(a: Entries, b: Entries)
    ensures IntValues(a + b) == IntValues(a) + IntValues(b)
  {
    if a != [] {
      assert (a + b)[1..] == a[1..] + b;
      IntValuesConcat(a[1..], b);
    } else {
      assert a + b == b;
    }
  }

  /** Writing under a string key leaves the integer-keyed values alone. */
  lemma IntValuesPutStr(a: Entries, k: Key, v: Value)
    requires k.StrKey?
    ensures IntValues(Put(a, k, v)) == IntValues(a)
  {
    match Find(a, k)
    case None =>
      IntValuesConcat(a, [(k, v)]);
      assert IntValues([(k, v)]) == [];
    case Some(i) =>
      assert a == a[..i] + [a[i]] + a[i + 1..];
      assert a[i := (k, v)] == a[..i] + [(k, v)] + a[i + 1..];
      IntValuesConcat(a[..i] + [a[i]], a[i + 1..]);
      IntValuesConcat(a[..i], [a[i]]);
      IntValuesConcat(a[..i] + [(k, v)], a[i + 1..]);
      IntValuesConcat(a[..i], [(k, v)]);
      assert IntValues([a[i]]) == [] == IntValues([(k, v)]);
  }

  lemma IntValuesAppend(a: Entries, v: Value)
    ensures IntValues(Append(a, v)) == IntValues(a) + [v]
  {
    IntValuesConcat(a, [(IntKey(NextIndex(a)), v)]);
  }

  /* ----- strtolower and str_replace ----- */

  function LowerChar(c: char): char
  {
    if 'A' <= c <= 'Z' then (c as int + 32) as char else c
  }

  predicate IsUpper(c: char)
  {
    'A' <= c <= 'Z'
  }

  /** `strtolower`: ASCII letters only, every other character unchanged. */
  function Lower(s: string): (r: string)
    ensures |r| == |s|
    ensures forall i | 0 <= i < |s| :: !IsUpper(r[i])
    ensures forall i | 0 <= i < |s| && !IsUpper(s[i]) :: r[i] == s[i]
  {
    seq(|s|, i requires 0 <= i < |s| => LowerChar(s[i]))
  }

  /** Lowercasing is idempotent, so a stored (lowercased) key finds itself. */
  lemma LowerIdempotent(s: string)
    ensures Lower(Lower(s)) == Lower(s)
  {
    var t := Lower(s);
    assert forall i | 0 <= i < |t| :: Lower(t)[i] == t[i];
  }

  /** `str_replace($from, $to, $s)` for single-character `$from` and `$to`. */
  function ReplaceChar(s: string, from: char, to: char): (r: string)
    ensures |r| == |s|
    ensures forall i | 0 <= i < |s| :: r[i] == (if s[i] == from then to else s[i])
  {
    seq(|s|, i requires 0 <= i < |s| => if s[i] == from then to else s[i])
  }
}
