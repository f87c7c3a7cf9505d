/** How many file operations and transactions a migration still has to perform, at most. */
module MigrationCost {
  import opened Common
  import opened Bytes
  import opened Migration

  /** For a hidden directory: its row, one operation to read each sidecar and five to move its object, one
      for each byte file, and two to end it. */
  function DirCost(dir: Dir): nat {
    3 + 6 * |dir.sidecars| + |dir.bytes|
  }

  /** A plain directory must be hidden first. */
  function Weight(plain: map<Bytes, Dir>, hidden: map<Bytes, Dir>, b: Bytes): nat {
    (if b in plain then 1 + DirCost(plain[b]) else 0) + (if b in hidden then DirCost(hidden[b]) else 0)
  }

  ghost function SumOf(plain: map<Bytes, Dir>, hidden: map<Bytes, Dir>, s: set<Bytes>): nat {
    if s == {} then 0 else
      var b :| b in s;
      Weight(plain, hidden, b) + SumOf(plain, hidden, s - {b})
  }

  /** Every directory's weight, and the layout stamp. */
  ghost function Cost(plain: map<Bytes, Dir>, hidden: map<Bytes, Dir>): nat {
    1 + SumOf(plain, hidden, plain.Keys + hidden.Keys)
  }

  /** No directory has become more work. */
  ghost predicate Shrunk(plain: map<Bytes, Dir>, hidden: map<Bytes, Dir>, plain': map<Bytes, Dir>,
                         hidden': map<Bytes, Dir>) {
    forall b :: Weight(plain', hidden', b) <= Weight(plain, hidden, b)
  }

  lemma {:induction false} SumTakes(plain: map<Bytes, Dir>, hidden: map<Bytes, Dir>, s: set<Bytes>, b: Bytes)
    requires b in s
    ensures SumOf(plain, hidden, s) == Weight(plain, hidden, b) + SumOf(plain, hidden, s - {b})
    decreases s
  {
    hide Weight;
    var c :| c in s && SumOf(plain, hidden, s) == Weight(plain, hidden, c) + SumOf(plain, hidden, s - {c});
    if c != b {
      SumTakes(plain, hidden, s - {c}, b);
      SumTakes(plain, hidden, s - {b}, c);
      assert s - {c} - {b} == s - {b} - {c};
    }
  }

  lemma {:induction false} SumShrinks(plain: map<Bytes, Dir>, hidden: map<Bytes, Dir>, plain': map<Bytes, Dir>,
                                      hidden': map<Bytes, Dir>, s: set<Bytes>)
    requires Shrunk(plain, hidden, plain', hidden')
    ensures SumOf(plain', hidden', s) <= SumOf(plain, hidden, s)
    decreases s
  {
    hide Weight;
    if s != {} {
      var b :| b in s;
      SumTakes(plain, hidden, s, b);
      SumTakes(plain', hidden', s, b);
      SumShrinks(plain, hidden, plain', hidden', s - {b});
    }
  }

  /** Names of no directory weigh nothing. */
  lemma {:induction false} SumIgnores(plain: map<Bytes, Dir>, hidden: map<Bytes, Dir>, s: set<Bytes>)
    requires plain.Keys + hidden.Keys <= s
    ensures SumOf(plain, hidden, s) + 1 == Cost(plain, hidden)
    decreases s
  {
    var keys := plain.Keys + hidden.Keys;
    if s == keys {
    } else {
      var b :| b in s && b !in keys;
      SumTakes(plain, hidden, s, b);
      SumIgnores(plain, hidden, s - {b});
    }
  }

  lemma KeysShrink(plain: map<Bytes, Dir>, hidden: map<Bytes, Dir>, plain': map<Bytes, Dir>, hidden': map<Bytes, Dir>)
    requires Shrunk(plain, hidden, plain', hidden')
    ensures plain'.Keys + hidden'.Keys <= plain.Keys + hidden.Keys
  {
    forall b | b in plain' || b in hidden' ensures b in plain || b in hidden {
      assert Weight(plain', hidden', b) > 0;
      assert Weight(plain', hidden', b) <= Weight(plain, hidden, b);
    }
  }

  lemma CostShrinks(plain: map<Bytes, Dir>, hidden: map<Bytes, Dir>, plain': map<Bytes, Dir>, hidden': map<Bytes, Dir>)
    requires Shrunk(plain, hidden, plain', hidden')
    ensures Cost(plain', hidden') <= Cost(plain, hidden)
  {
    hide Weight;
    KeysShrink(plain, hidden, plain', hidden');
    SumShrinks(plain, hidden, plain', hidden', plain.Keys + hidden.Keys);
    SumIgnores(plain', hidden', plain.Keys + hidden.Keys);
  }

  /** Work done on one directory comes off the cost. */
  lemma CostDrops(plain: map<Bytes, Dir>, hidden: map<Bytes, Dir>, plain': map<Bytes, Dir>, hidden': map<Bytes, Dir>,
                  b: Bytes, work: nat)
    requires Shrunk(plain, hidden, plain', hidden') && (b in plain || b in hidden)
    requires Weight(plain', hidden', b) + work <= Weight(plain, hidden, b)
    ensures Cost(plain', hidden') + work <= Cost(plain, hidden)
  {
    hide Weight;
    var keys := plain.Keys + hidden.Keys;
    KeysShrink(plain, hidden, plain', hidden');
    SumTakes(plain, hidden, keys, b);
    SumTakes(plain', hidden', keys, b);
    SumShrinks(plain, hidden, plain', hidden', keys - {b});
    SumIgnores(plain', hidden', keys);
  }

  lemma WeightIsPart(plain: map<Bytes, Dir>, hidden: map<Bytes, Dir>, b: Bytes)
    requires b in plain || b in hidden
    ensures Weight(plain, hidden, b) < Cost(plain, hidden)
  {
    SumTakes(plain, hidden, plain.Keys + hidden.Keys, b);
  }

  /** Fuel spent is paid for by cost saved; a process that dies had less fuel than there was cost. */
  predicate Paid(before: nat, after: nat, alive: bool, cost: nat, left: nat) {
    if alive then after <= before && before + left <= after + cost else after == 0 && before < cost
  }

  // ---- single steps ------------------------------------------------------------------

  lemma LighterDir(plain: map<Bytes, Dir>, hidden: map<Bytes, Dir>, bucket: Bytes, dir: Dir)
    requires bucket in hidden && DirCost(dir) <= DirCost(hidden[bucket])
    ensures Shrunk(plain, hidden, plain, hidden[bucket := dir])
  {
    hide DirCost;
  }

  lemma DirGone(plain: map<Bytes, Dir>, hidden: map<Bytes, Dir>, bucket: Bytes)
    ensures Shrunk(plain, hidden, plain, hidden - {bucket})
  {
    hide DirCost;
  }

  lemma DirHidden(plain: map<Bytes, Dir>, hidden: map<Bytes, Dir>, bucket: Bytes)
    requires bucket in plain && bucket !in hidden
    ensures var plain', hidden' := plain - {bucket}, hidden[bucket := plain[bucket]];
            && Shrunk(plain, hidden, plain', hidden')
            && Weight(plain', hidden', bucket) + 1 == Weight(plain, hidden, bucket)
  {
    hide DirCost;
  }

  lemma FewerSidecars(dir: Dir, st: Bytes)
    ensures DirCost(dir.(sidecars := dir.sidecars - {st})) <= DirCost(dir)
    ensures |dir.sidecars - {st}| <= |dir.sidecars|
  {
    SubsetSize((dir.sidecars - {st}).Keys, dir.sidecars.Keys);
  }

  lemma FewerBytes(dir: Dir, st: Bytes)
    ensures DirCost(dir.(bytes := dir.bytes - {st})) <= DirCost(dir)
    ensures st in dir.bytes ==> |dir.bytes - {st}| + 1 == |dir.bytes|
  {
    var less := dir.bytes - {st};
    SubsetSize(less.Keys, dir.bytes.Keys);
    if st in dir.bytes { assert dir.bytes.Keys == less.Keys + {st}; }
  }
}
