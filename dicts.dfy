/** Python dictionaries keyed by strings, with their entries in insertion
    order (the order in which a `for key in d` loop visits them). */
module Dicts {

  /** One key/value pair of a dictionary. */
  datatype Entry<V> = Entry(key: string, value: V)

  /** A dictionary: its entries in insertion order. */
  type Dict<V> = seq<Entry<V>>

  function Keys<V>(d: Dict<V>): set<string>
  {
    set i | 0 <= i < |d| :: d[i].key
  }

  /** Every dictionary has this shape: no key occurs twice. */
  predicate UniqueKeys<V>(d: Dict<V>)
  {
    forall i, j :: 0 <= i < j < |d| ==> d[i].key != d[j].key
  }

  /** The position of key `k`. */
  function IndexOf<V>(d: Dict<V>, k: string): (i: nat)
    requires k in Keys(d)
    ensures i < |d| && d[i].key == k
    ensures forall j :: 0 <= j < i ==> d[j].key != k
  {
    if d[0].key == k then 0
    else
      assert k in Keys(d[1..]) by {
        var j :| 0 <= j < |d| && d[j].key == k;
        assert d[1..][j - 1].key == k;
      }
      1 + IndexOf(d[1..], k)
  }

  /** `d[k]` for a key that is present. */
  function Lookup<V>(d: Dict<V>, k: string): (v: V)
    requires k in Keys(d)
    ensures exists i :: 0 <= i < |d| && d[i] == Entry(k, v)
  {
    d[IndexOf(d, k)].value
  }

  /** The assignment `d[k] = v`: a key already present keeps its position
      and takes the new value; a new key is appended; nothing else changes. */
  function Put<V>(d: Dict<V>, k: string, v: V): (r: Dict<V>)
    requires UniqueKeys(d)
    ensures UniqueKeys(r)
    ensures Keys(r) == Keys(d) + {k}
    ensures k in Keys(d) ==> |r| == |d|
    ensures k !in Keys(d) ==> r == d + [Entry(k, v)]
    ensures forall i :: 0 <= i < |d| ==> r[i] == if d[i].key == k then Entry(k, v) else d[i]
  {
    if k in Keys(d) then
      var i := IndexOf(d, k);
      var r := d[i := Entry(k, v)];
      assert Keys(r) == Keys(d) by {
        forall y | y in Keys(d) ensures y in Keys(r) {
          var j :| 0 <= j < |d| && d[j].key == y;
          assert r[j].key == y;
        }
      }
      r
    else
      var r := d + [Entry(k, v)];
      assert Keys(r) == Keys(d) + {k} by {
        assert r[|d|].key == k;
        forall y | y in Keys(d) ensures y in Keys(r) {
          var j :| 0 <= j < |d| && d[j].key == y;
          assert r[j].key == y;
        }
      }
      r
  }
}
