/**
 * Python's `dict(pairs)` and `dict(zip(keys, values))`: a mapping built by
 * inserting the pairs in order, so a repeated key keeps its last value, and
 * `zip` pairing two lists only over their common length.
 */
module Assoc {
  import opened Options

  function Min(a: nat, b: nat): nat
  {
    if a <= b then a else b
  }

  /** `zip(ks, vs)`: pairs index for index up to the shorter length. */
  function Zip(ks: seq<string>, vs: seq<string>): seq<(string, string)>
  {
    if |ks| == 0 || |vs| == 0 then [] else [(ks[0], vs[0])] + Zip(ks[1..], vs[1..])
  }

  lemma {:induction false} ZipPairs(ks: seq<string>, vs: seq<string>)
    ensures |Zip(ks, vs)| == Min(|ks|, |vs|)
    ensures forall i :: 0 <= i < |Zip(ks, vs)| ==> Zip(ks, vs)[i] == (ks[i], vs[i])
  {
    if |ks| > 0 && |vs| > 0 {
      ZipPairs(ks[1..], vs[1..]);
    }
  }

  /** The pair at index i is the last one in ps with its key. */
  ghost predicate LastOf(ps: seq<(string, string)>, i: nat)
    requires i < |ps|
  {
    forall j :: i < j < |ps| ==> ps[j].0 != ps[i].0
  }

  /** `dict(ps)`: the pairs inserted in order. */
  function DictOf(ps: seq<(string, string)>): map<string, string>
  {
    if |ps| == 0 then map[] else DictOf(ps[..|ps| - 1])[ps[|ps| - 1].0 := ps[|ps| - 1].1]
  }

  /** The keys of `dict(ps)` are those of ps, and each maps to the value of its last pair. */
  lemma {:induction false} DictOfLastWins(ps: seq<(string, string)>)
    ensures forall k :: k in DictOf(ps) <==> exists i :: 0 <= i < |ps| && ps[i].0 == k
    ensures forall k :: k in DictOf(ps) ==> exists i :: 0 <= i < |ps| && ps[i] == (k, DictOf(ps)[k]) && LastOf(ps, i)
  {
    if |ps| > 0 {
      var front := ps[..|ps| - 1];
      DictOfLastWins(front);
      var m0, m := DictOf(front), DictOf(ps);
      var (k0, v0) := ps[|ps| - 1];
      assert forall i :: 0 <= i < |front| ==> front[i] == ps[i];
      forall k | k in m
        ensures exists i :: 0 <= i < |ps| && ps[i] == (k, m[k]) && LastOf(ps, i)
      {
        if k == k0 {
          assert ps[|ps| - 1] == (k, m[k]) && LastOf(ps, |ps| - 1);
        } else {
          var i :| 0 <= i < |front| && front[i] == (k, m0[k]) && LastOf(front, i);
          assert ps[i] == (k, m[k]) && LastOf(ps, i);
        }
      }
    }
  }

  /** `dict(ps).get(k)`. */
  function Lookup(ps: seq<(string, string)>, k: string): Option<string>
  {
    var m := DictOf(ps);
    if k in m then Some(m[k]) else None
  }

  /** Absent exactly when no pair has key k, else the value of the last such pair. */
  lemma LookupLastWins(ps: seq<(string, string)>, k: string)
    ensures Lookup(ps, k).None? <==> forall i :: 0 <= i < |ps| ==> ps[i].0 != k
    ensures Lookup(ps, k).Some? ==> exists i :: 0 <= i < |ps| && ps[i] == (k, Lookup(ps, k).value) && LastOf(ps, i)
  {
    DictOfLastWins(ps);
  }

  /**
   * The value for key k in `dict(zip(ks, vs))`, stated on the two lists: absent
   * when k is not among the first Min(|ks|, |vs|) keys, otherwise the value at
   * the last such position.
   */
  ghost predicate PairedLast(ks: seq<string>, vs: seq<string>, k: string, r: Option<string>)
  {
    var n := Min(|ks|, |vs|);
    if r.None? then forall i :: 0 <= i < n ==> ks[i] != k
    else exists i :: 0 <= i < n && ks[i] == k && vs[i] == r.value && forall j :: i < j < n ==> ks[j] != k
  }

  lemma LookupZip(ks: seq<string>, vs: seq<string>, k: string)
    ensures PairedLast(ks, vs, k, Lookup(Zip(ks, vs), k))
  {
    var ps := Zip(ks, vs);
    var r := Lookup(ps, k);
    ZipPairs(ks, vs);
    LookupLastWins(ps, k);
    if r.Some? {
      var i :| 0 <= i < |ps| && ps[i] == (k, r.value) && LastOf(ps, i);
      assert forall j :: i < j < |ps| ==> ks[j] != k by {
        forall j | i < j < |ps| ensures ks[j] != k {
          assert ps[j].0 == ks[j];
        }
      }
    } else {
      assert forall i :: 0 <= i < |ps| ==> ks[i] != k by {
        forall i | 0 <= i < |ps| ensures ks[i] != k {
          assert ps[i].0 == ks[i];
        }
      }
    }
  }

  /** With pairwise distinct keys, `dict(ps)` maps each key to its own value. */
  lemma DictOfDistinct(ps: seq<(string, string)>, i: nat)
    requires i < |ps|
    requires forall a, b :: 0 <= a < b < |ps| ==> ps[a].0 != ps[b].0
    ensures ps[i].0 in DictOf(ps) && DictOf(ps)[ps[i].0] == ps[i].1
  {
    DictOfLastWins(ps);
  }
}
