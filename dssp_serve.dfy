/**
 * The secondary-structure colouring of a parsed structure: each residue that
 * the secondary-structure assignment lists gets its code, as a small number,
 * written into the B-factor of every one of its atoms, so a viewer can colour
 * by B-factor.
 */
module DsspServe {
  import opened Wrappers

  /** A residue id as the structure parser keys it: hetero flag, sequence number, insertion code. */
  datatype ResId = ResId(hetero: string, number: int, insertion: char)

  /** A key of the assignment: a chain id and a residue id. */
  datatype SsKey = SsKey(chain: string, resId: ResId)

  /** An atom; everything but `bfactor` is left as parsed. */
  datatype Atom = Atom(name: string, serial: int, element: string, bfactor: real)

  /** The first model of the structure: chain id to residue id to the residue's atoms. */
  type Chains = map<string, map<ResId, seq<Atom>>>

  /** The number each secondary-structure code is written as. */
  const SsMap: map<string, nat> := map["H" := 1, "B" := 2, "E" := 3, "G" := 4, "I" := 5, "T" := 6, "S" := 7, "-" := 0]

  /** `ss_map.get(code, 0)` */
  function SsValue(code: string): nat {
    if code in SsMap then SsMap[code] else 0
  }

  /** What `model[chain][n]` looks up for an integer `n`: a standard residue with no insertion code. */
  function Target(key: SsKey): ResId {
    ResId(" ", key.resId.number, ' ')
  }

  /** The atoms with their B-factor set to `v`, and nothing else changed. */
  function WithBFactor(atoms: seq<Atom>, v: real): (r: seq<Atom>)
    ensures |r| == |atoms|
    ensures forall i :: 0 <= i < |r| ==> r[i] == atoms[i].(bfactor := v)
  {
    if atoms == [] then [] else [atoms[0].(bfactor := v)] + WithBFactor(atoms[1..], v)
  }

  /** One turn of the loop: the residue the key names is rewritten, or the key is skipped when the lookup fails. */
  function EncodeOne(m: Chains, key: SsKey, code: string): Chains {
    if key.chain in m && Target(key) in m[key.chain] then
      m[key.chain := m[key.chain][Target(key) := WithBFactor(m[key.chain][Target(key)], SsValue(code) as real)]]
    else m
  }

  /** The model once the loop has run over `entries`, the assignment's keys with their codes, in order. */
  function EncodeAll(m: Chains, entries: seq<(SsKey, string)>): Chains
    decreases |entries|
  {
    if entries == [] then m
    else
      var last := entries[|entries| - 1];
      EncodeOne(EncodeAll(m, entries[..|entries| - 1]), last.0, last.1)
  }

  /** The parsed structure whose atoms `run_dssp` updates in place. */
  class Structure {
    var chains: Chains

    constructor (chains: Chains)
      ensures this.chains == chains
    {
      this.chains := chains;
    }

    /** `atom.set_bfactor(v)` for every atom of `chains[c][id]`. */
    method SetResidueBFactor(c: string, id: ResId, v: real)
      requires c in chains && id in chains[c]
      modifies this
      ensures chains == old(chains[c := chains[c][id := WithBFactor(chains[c][id], v)]])
    {
      var atoms := chains[c][id];
      var j := 0;
      while j < |atoms|
        invariant 0 <= j <= |atoms| && |atoms| == |old(chains[c][id])|
        invariant atoms[..j] == WithBFactor(old(chains[c][id])[..j], v)
        invariant atoms[j..] == old(chains[c][id])[j..]
        invariant chains == old(chains)
      {
        var before := atoms;
        atoms := atoms[j := atoms[j].(bfactor := v)];
        assert atoms[..j + 1] == before[..j] + [before[j].(bfactor := v)];
        WithBFactorSnoc(old(chains[c][id])[..j], old(chains[c][id])[j], v);
        assert old(chains[c][id])[..j + 1] == old(chains[c][id])[..j] + [old(chains[c][id])[j]];
        j := j + 1;
      }
      assert atoms == atoms[..j];
      assert old(chains[c][id])[..j] == old(chains[c][id]);
      chains := chains[c := chains[c][id := atoms]];
    }

    /** The loop over the assignment's keys. */
    method EncodeSecondaryStructure(entries: seq<(SsKey, string)>)
      modifies this
      ensures chains == EncodeAll(old(chains), entries)
    {
      var i := 0;
      while i < |entries|
        invariant 0 <= i <= |entries|
        invariant chains == EncodeAll(old(chains), entries[..i])
      {
        var (key, code) := entries[i];
        assert entries[..i + 1][..i] == entries[..i];
        ghost var before := chains;
        if key.chain in chains && Target(key) in chains[key.chain] {
          SetResidueBFactor(key.chain, Target(key), SsValue(code) as real);
        }
        assert chains == EncodeOne(before, key, code);
        i := i + 1;
      }
      assert entries[..i] == entries;
    }
  }

  // ---------------------------------------------------------------------------
  // Properties
  // ---------------------------------------------------------------------------

  lemma {:induction false} WithBFactorSnoc(atoms: seq<Atom>, a: Atom, v: real)
    ensures WithBFactor(atoms + [a], v) == WithBFactor(atoms, v) + [a.(bfactor := v)]
  {
    var l, r := WithBFactor(atoms + [a], v), WithBFactor(atoms, v) + [a.(bfactor := v)];
    assert |l| == |r|;
    forall i | 0 <= i < |l| ensures l[i] == r[i] {
      if i < |atoms| { assert (atoms + [a])[i] == atoms[i]; }
    }
  }

  /** The table gives every listed code its own number from 1 to 7, `-` and every other code 0. */
  lemma SsValueTable(code: string, code': string)
    ensures SsValue(code) <= 7
    ensures SsValue(code) == 0 <==> code !in {"H", "B", "E", "G", "I", "T", "S"}
    ensures SsValue(code) != 0 && SsValue(code) == SsValue(code') ==> code == code'
  {
  }

  /** Two models that differ only in B-factors. */
  predicate SameButBFactors(m: Chains, m': Chains) {
    m.Keys == m'.Keys
    && forall c :: c in m ==>
         m[c].Keys == m'[c].Keys
         && forall id :: id in m[c] ==>
              |m[c][id]| == |m'[c][id]|
              && forall i :: 0 <= i < |m[c][id]| ==> m'[c][id][i] == m[c][id][i].(bfactor := m'[c][id][i].bfactor)
  }

  lemma {:induction false} SameButBFactorsTransitive(m: Chains, m': Chains, m'': Chains)
    requires SameButBFactors(m, m') && SameButBFactors(m', m'')
    ensures SameButBFactors(m, m'')
  {
  }

  lemma {:induction false} EncodeOneShape(m: Chains, key: SsKey, code: string)
    ensures SameButBFactors(m, EncodeOne(m, key, code))
  {
  }

  /** Only B-factors change: every chain, residue and atom stays, with everything else as parsed. */
  lemma {:induction false} EncodeShape(m: Chains, entries: seq<(SsKey, string)>)
    ensures SameButBFactors(m, EncodeAll(m, entries))
    decreases |entries|
  {
    if entries != [] {
      var front := entries[..|entries| - 1];
      var last := entries[|entries| - 1];
      EncodeShape(m, front);
      EncodeOneShape(EncodeAll(m, front), last.0, last.1);
      SameButBFactorsTransitive(m, EncodeAll(m, front), EncodeAll(m, entries));
    }
  }

  /** The code of the last entry that names chain `c` and residue number `n`, if any. */
  function LastCode(entries: seq<(SsKey, string)>, c: string, n: int): Option<string>
    decreases |entries|
  {
    if entries == [] then None
    else
      var last := entries[|entries| - 1];
      if last.0.chain == c && last.0.resId.number == n then Some(last.1)
      else LastCode(entries[..|entries| - 1], c, n)
  }

  lemma {:induction false} WithBFactorTwice(atoms: seq<Atom>, v: real, w: real)
    ensures WithBFactor(WithBFactor(atoms, v), w) == WithBFactor(atoms, w)
  {
    var l, r := WithBFactor(WithBFactor(atoms, v), w), WithBFactor(atoms, w);
    assert |l| == |r|;
    forall i | 0 <= i < |l| ensures l[i] == r[i] { }
  }

  /** What one residue looks like after the loop, from the residue as parsed. */
  function Encoded(atoms: seq<Atom>, id: ResId, entries: seq<(SsKey, string)>, c: string): seq<Atom> {
    if id.hetero == " " && id.insertion == ' ' && LastCode(entries, c, id.number).Some? then
      WithBFactor(atoms, SsValue(LastCode(entries, c, id.number).value) as real)
    else atoms
  }

  /**
   * A standard residue without an insertion code gets the code of the last key
   * that names its chain and number; every other residue, and every residue no
   * key names, keeps its atoms as parsed.
   */
  lemma {:induction false} LastCodeWins(m: Chains, entries: seq<(SsKey, string)>, c: string, id: ResId)
    requires c in m && id in m[c]
    ensures c in EncodeAll(m, entries) && id in EncodeAll(m, entries)[c]
    ensures EncodeAll(m, entries)[c][id] == Encoded(m[c][id], id, entries, c)
    decreases |entries|
  {
    EncodeShape(m, entries);
    if entries != [] {
      var front := entries[..|entries| - 1];
      var (key, code) := entries[|entries| - 1];
      var mid := EncodeAll(m, front);
      LastCodeWins(m, front, c, id);
      EncodeShape(m, front);
      var atoms := m[c][id];
      if key.chain == c && Target(key) == id {
        assert LastCode(entries, c, id.number) == Some(code);
        var w := SsValue(code) as real;
        assert EncodeAll(m, entries)[c][id] == WithBFactor(mid[c][id], w);
        if LastCode(front, c, id.number).Some? {
          WithBFactorTwice(atoms, SsValue(LastCode(front, c, id.number).value) as real, w);
        }
      } else {
        assert EncodeAll(m, entries)[c][id] == mid[c][id];
        if id.hetero == " " && id.insertion == ' ' {
          assert LastCode(entries, c, id.number) == LastCode(front, c, id.number);
        }
      }
    }
  }
}
