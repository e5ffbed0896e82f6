/** Ordered iteration over a byte map, as pebble and avalanchego's database provide it. */
module Iteration {
  import opened Prelude
  import opened Keys
  import opened StoreModel

  lemma {:induction false} LeastKeyExists(ks: set<string>) returns (k: string)
    requires ks != {}
    ensures k in ks && forall j :: j in ks ==> !LexLess(j, k)
  {
    k :| k in ks;
    LexTotal(k, k);
    var rest := ks - {k};
    assert ks == rest + {k};
    if rest != {} {
      var m := LeastKeyExists(rest);
      if LexLess(m, k) {
        LexTotal(m, k);
        k := m;
      } else {
        forall j | j in ks ensures !LexLess(j, k) {
          if j != k && LexLess(j, k) {
            LexTotal(m, k);
            if m != k { LexTransitive(j, k, m); }
          }
        }
      }
    }
  }

  lemma {:induction false} GreatestKeyExists(ks: set<string>) returns (k: string)
    requires ks != {}
    ensures k in ks && forall j :: j in ks ==> !LexLess(k, j)
  {
    k :| k in ks;
    LexTotal(k, k);
    var rest := ks - {k};
    assert ks == rest + {k};
    if rest != {} {
      var m := GreatestKeyExists(rest);
      if LexLess(k, m) {
        LexTotal(m, k);
        k := m;
      } else {
        forall j | j in ks ensures !LexLess(k, j) {
          if j != k && LexLess(k, j) {
            LexTotal(m, k);
            if m != k { LexTransitive(m, k, j); }
          }
        }
      }
    }
  }

  predicate StrictlyAscending(ks: seq<string>) {
    forall i, j :: 0 <= i < j < |ks| ==> LexLess(ks[i], ks[j])
  }

  /** NewIteratorWithPrefix followed by Next until it is exhausted: every matching key once, in byte order. */
  method KeysWithPrefix(db: Db, prefix: string) returns (ks: seq<string>)
    ensures StrictlyAscending(ks)
    ensures forall k :: k in ks <==> k in db && prefix <= k
  {
    var todo := set k | k in db && prefix <= k;
    ks := [];
    while todo != {}
      invariant StrictlyAscending(ks)
      invariant forall k :: k in ks || k in todo <==> k in db && prefix <= k
      invariant forall i, k :: 0 <= i < |ks| && k in todo ==> LexLess(ks[i], k)
      decreases todo
    {
      ghost var least := LeastKeyExists(todo);
      var k :| k in todo && forall j :: j in todo ==> !LexLess(j, k);
      forall j | j in todo - {k} ensures LexLess(k, j) { LexTotal(j, k); }
      ks := ks + [k];
      todo := todo - {k};
    }
  }

  /** A key that begins with a family's prefix is a key of that family. */
  lemma PrefixTellsFamily(k: string)
    requires WellKeyed({k})
    ensures "block:" <= k <==> IsBlockKey(k)
    ensures "batch:" <= k <==> IsBatchKey(k)
  {
    assert k in {k};
    if IsBlockKey(k) {
      var n: u64 :| k == BlockKey(n);
      FamiliesApart(n, 0, 0);
      forall s: u64, e: u64 ensures k != BatchKey(s, e) { FamiliesApart(n, s, e); }
    } else if IsBatchKey(k) {
      var s: u64, e: u64 :| k == BatchKey(s, e);
      FamiliesApart(0, s, e);
    } else {
      FamiliesApart(0, 0, 0);
    }
  }
}
