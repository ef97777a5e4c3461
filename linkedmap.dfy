/** Java's `LinkedHashMap<String, String>` as a list of entries in insertion
    order, as the rows of the iteration tables are built. */
module LinkedMap {
  import opened Common

  /** A key and its value, at their insertion position. */
  datatype Entry = Entry(key: string, value: string)

  type Row = seq<Entry>

  function Keys(row: Row): (ks: seq<string>)
    ensures |ks| == |row| && forall i :: 0 <= i < |row| ==> ks[i] == row[i].key
  {
    seq(|row|, i requires 0 <= i < |row| => row[i].key)
  }

  /** `get`: the value stored under `k`, if any. */
  function Get(row: Row, k: string): Option<string> {
    if row == [] then None else if row[0].key == k then Some(row[0].value) else Get(row[1..], k)
  }

  /** `put`: a present key keeps its position and takes the new value; a new
      key goes last. */
  function Put(row: Row, k: string, v: string): Row {
    if row == [] then [Entry(k, v)]
    else if row[0].key == k then [Entry(k, v)] + row[1..]
    else [row[0]] + Put(row[1..], k, v)
  }

  /** After `put`, `k` maps to the new value and every other key to its old one. */
  lemma {:induction false} PutGet(row: Row, k: string, v: string, q: string)
    ensures Get(Put(row, k, v), q) == if q == k then Some(v) else Get(row, q)
  {
    if row != [] && row[0].key != k {
      PutGet(row[1..], k, v, q);
      assert Put(row, k, v)[1..] == Put(row[1..], k, v);
    }
  }

  /** `put` adds `k` to the keys, keeps them distinct and keeps the first one. */
  lemma {:induction false} PutKeys(row: Row, k: string, v: string)
    ensures forall q :: q in Keys(Put(row, k, v)) <==> q in Keys(row) || q == k
    ensures Distinct(Keys(row)) ==> Distinct(Keys(Put(row, k, v)))
    ensures row != [] ==> Put(row, k, v)[0].key == row[0].key
  {
    if row == [] {
      assert Keys(Put(row, k, v)) == [k];
    } else if row[0].key != k {
      var t := row[1..];
      PutKeys(t, k, v);
      var a := row[0].key;
      assert Keys(row) == [a] + Keys(t);
      assert Keys(Put(row, k, v)) == [a] + Keys(Put(t, k, v));
      DistinctCons(a, Keys(t));
      DistinctCons(a, Keys(Put(t, k, v)));
    } else {
      assert Keys(Put(row, k, v)) == Keys(row);
    }
  }

  /** A key that is not in the row has no value. */
  lemma {:induction false} GetAbsent(row: Row, q: string)
    requires q !in Keys(row)
    ensures Get(row, q) == None
  {
    if row != [] {
      assert Keys(row[1..]) == Keys(row)[1..];
      GetAbsent(row[1..], q);
    }
  }

  /** `put` of a new key appends it. */
  lemma {:induction false} PutNew(row: Row, k: string, v: string)
    requires k !in Keys(row)
    ensures Put(row, k, v) == row + [Entry(k, v)]
  {
    if row != [] {
      assert Keys(row[1..]) == Keys(row)[1..];
      PutNew(row[1..], k, v);
    }
  }
}
