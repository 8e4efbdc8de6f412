/** Maps that are only cleaned up opportunistically: the notifier's dedupe map and
    the dashboard's session map. */
module SweptMaps {

  /** The map without the entries whose time lies before `cutoff`. */
  function Swept(m: map<string, int>, cutoff: int): map<string, int> {
    map k | k in m && cutoff <= m[k] :: m[k]
  }

  /** Visits the keys in any order and deletes the entries that are too old. */
  method Sweep(m0: map<string, int>, cutoff: int) returns (m: map<string, int>)
    ensures m == Swept(m0, cutoff)
  {
    m := m0;
    var todo := m0.Keys;
    while todo != {}
      invariant todo <= m0.Keys && m.Keys <= m0.Keys && todo <= m.Keys
      invariant forall k :: k in m ==> m[k] == m0[k]
      invariant forall k :: k in m0.Keys - todo ==> (k in m <==> cutoff <= m0[k])
      decreases todo
    {
      var k :| k in todo;
      if m0[k] < cutoff {
        m := m - {k};
      }
      todo := todo - {k};
    }
  }

  lemma {:induction false} SubsetSize(a: set<string>, b: set<string>)
    requires a <= b
    ensures |a| <= |b|
    decreases |a|
  {
    if a != {} {
      var x :| x in a;
      SubsetSize(a - {x}, b - {x});
    }
  }
}
