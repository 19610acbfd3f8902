/**
 * The hash chain of confirmed deletion receipts. The digest is a parameter: all
 * that is used is that it is injective, never empty and never the genesis string.
 * Signatures stay opaque behind a predicate.
 */
module ReceiptChain {
  import opened Common

  type Hash = string
  type Signature = string

  const GENESIS: Hash := "cogeto:deletion-receipt-chain:genesis"

  /** The fields the hash covers; `counts` stands for the canonical counts document. */
  datatype Payload = Payload(
    id: nat, sourceType: string, sourceId: string, counts: string,
    signedAt: int, confirmedAt: int, prevHash: Hash)

  datatype Receipt = Receipt(payload: Payload, hash: Hash, signature: Signature)

  type Digest = Payload -> Hash

  ghost predicate Collisionless(digest: Digest) {
    && (forall p, q | digest(p) == digest(q) :: p == q)
    && (forall p :: digest(p) != GENESIS && digest(p) != "")
  }

  function TipHash(chain: seq<Receipt>): Hash {
    if chain == [] then GENESIS else chain[|chain| - 1].hash
  }

  /** What receipt `i` of a chain must name as its predecessor. */
  function LinkHash(chain: seq<Receipt>, i: nat): Hash
    requires i <= |chain|
  {
    if i == 0 then GENESIS else chain[i - 1].hash
  }

  predicate Linked(digest: Digest, chain: seq<Receipt>, i: nat)
    requires i < |chain|
  {
    chain[i].hash == digest(chain[i].payload) && chain[i].payload.prevHash == LinkHash(chain, i)
  }

  /** One line from genesis: every receipt links to the one before it. */
  predicate IsChain(digest: Digest, chain: seq<Receipt>) {
    forall i | 0 <= i < |chain| :: Linked(digest, chain, i)
  }

  /** `chain` lists the rows of the table, each once, in chain order. */
  ghost predicate Orders(digest: Digest, rows: seq<Receipt>, chain: seq<Receipt>) {
    && |chain| == |rows|
    && (forall r :: r in chain <==> r in rows)
    && IsChain(digest, chain)
  }

  lemma ChainPrefix(digest: Digest, chain: seq<Receipt>, n: nat)
    requires IsChain(digest, chain) && n <= |chain|
    ensures IsChain(digest, chain[..n])
  {
    forall i | 0 <= i < n ensures Linked(digest, chain[..n], i) { assert Linked(digest, chain, i); }
  }

  lemma ChainExtends(digest: Digest, chain: seq<Receipt>, r: Receipt)
    requires IsChain(digest, chain) && r.hash == digest(r.payload) && r.payload.prevHash == TipHash(chain)
    ensures IsChain(digest, chain + [r]) && TipHash(chain + [r]) == r.hash
  {
    var longer := chain + [r];
    forall i | 0 <= i < |longer| ensures Linked(digest, longer, i) {
      if i < |chain| { assert Linked(digest, chain, i); }
    }
  }

  /** Links determine position: no hash and no previous hash occurs twice. */
  lemma {:induction false} HashesDiffer(digest: Digest, chain: seq<Receipt>, i: nat, j: nat)
    requires Collisionless(digest) && IsChain(digest, chain) && i < j < |chain|
    ensures chain[i].hash != chain[j].hash
    ensures chain[i].payload.prevHash != chain[j].payload.prevHash
    decreases i
  {
    assert Linked(digest, chain, i) && Linked(digest, chain, j) && Linked(digest, chain, j - 1);
    if i > 0 { HashesDiffer(digest, chain, i - 1, j - 1); }
  }

  /** Nothing in a chain links to its last receipt, and something links to every other one. */
  predicate IsTip(rows: seq<Receipt>, r: Receipt) {
    r in rows && forall q | q in rows :: q.payload.prevHash != r.hash
  }

  lemma InnerIsNoTip(digest: Digest, rows: seq<Receipt>, chain: seq<Receipt>, i: nat)
    requires Orders(digest, rows, chain) && i + 1 < |chain|
    ensures !IsTip(rows, chain[i])
  {
    assert Linked(digest, chain, i + 1) && chain[i + 1] in chain;
  }

  lemma TipIsLast(digest: Digest, rows: seq<Receipt>, chain: seq<Receipt>, r: Receipt)
    requires Collisionless(digest) && Orders(digest, rows, chain)
    ensures IsTip(rows, r) <==> chain != [] && r == chain[|chain| - 1]
  {
    if IsTip(rows, r) {
      assert r in chain;
      var i :| 0 <= i < |chain| && chain[i] == r;
      if i + 1 < |chain| { InnerIsNoTip(digest, rows, chain, i); }
    }
    if chain != [] && r == chain[|chain| - 1] {
      var n := |chain| - 1;
      forall q | q in rows ensures q.payload.prevHash != r.hash {
        var k :| 0 <= k < |chain| && chain[k] == q;
        assert Linked(digest, chain, k) && Linked(digest, chain, n);
        if k > 0 { HashesDiffer(digest, chain, k - 1, n); }
      }
    }
  }

  // -------------------------------------------------------------- tip queries

  datatype TipError = CorruptedChain(tips: nat)

  /**
   * The executor's tip query: the hash no confirmed receipt links to, genesis for
   * an empty ledger, an error when several rows qualify.
   */
  method ExecutorTip(rows: seq<Receipt>) returns (r: Result<Hash, TipError>)
    ensures r.Err? ==> exists i, j :: 0 <= i < j < |rows| && IsTip(rows, rows[i]) && IsTip(rows, rows[j])
    ensures r.Ok? ==>
      || (r.value == GENESIS && forall q :: !IsTip(rows, q))
      || (exists q :: IsTip(rows, q) && q.hash == r.value)
  {
    var tips: seq<Receipt> := [];
    ghost var at: seq<nat> := [];
    for i := 0 to |rows|
      invariant |tips| == |at|
      invariant forall k | 0 <= k < |at| :: at[k] < i && rows[at[k]] == tips[k] && IsTip(rows, tips[k])
      invariant forall k, l | 0 <= k < l < |at| :: at[k] < at[l]
      invariant forall k | 0 <= k < i && IsTip(rows, rows[k]) :: rows[k] in tips
    {
      if forall q | q in rows :: q.payload.prevHash != rows[i].hash {
        tips, at := tips + [rows[i]], at + [i];
      }
    }
    if |tips| == 0 {
      return Ok(GENESIS);
    } else if |tips| > 1 {
      assert IsTip(rows, rows[at[0]]) && IsTip(rows, rows[at[1]]) && at[0] < at[1];
      return Err(CorruptedChain(|tips|));
    }
    assert IsTip(rows, tips[0]);
    r := Ok(tips[0].hash);
  }

  /** The exported anchor: the first row whose hash is not referenced, and the row count. */
  method ControllerTip(rows: seq<Receipt>) returns (hash: Option<Hash>, confirmedCount: nat)
    ensures confirmedCount == |rows|
    ensures hash.None? <==> forall q :: IsTip(rows, q) ==> q.hash == ""
    ensures hash.Some? ==> exists q :: IsTip(rows, q) && q.hash == hash.value
  {
    var referenced := set q | q in rows && q.payload.prevHash != "" :: q.payload.prevHash;
    for i := 0 to |rows|
      invariant forall k | 0 <= k < i && IsTip(rows, rows[k]) :: rows[k].hash == ""
    {
      if rows[i].hash != "" && rows[i].hash !in referenced {
        assert forall q | q in rows :: q.payload.prevHash != rows[i].hash;
        assert IsTip(rows, rows[i]);
        return Some(rows[i].hash), |rows|;
      }
    }
    hash, confirmedCount := None, |rows|;
  }

  /** A table that can be ordered into a chain holds no receipt twice. */
  lemma OrderedIsDistinct(digest: Digest, rows: seq<Receipt>, chain: seq<Receipt>)
    requires Collisionless(digest) && Orders(digest, rows, chain)
    ensures Distinct(rows)
  {
    forall i, j | 0 <= i < j < |chain| ensures chain[i] != chain[j] { HashesDiffer(digest, chain, i, j); }
    DistinctCount(chain);
    assert (set r | r in rows) == (set r | r in chain);
    DistinctByCount(rows);
  }

  /** On a linear ledger both queries answer with its end, and the error is unreachable. */
  method BothTips(digest: Digest, rows: seq<Receipt>, ghost chain: seq<Receipt>)
    returns (executor: Result<Hash, TipError>, anchor: Option<Hash>, count: nat)
    requires Collisionless(digest) && Orders(digest, rows, chain)
    ensures executor == Ok(TipHash(chain))
    ensures anchor == if chain == [] then None else Some(TipHash(chain))
    ensures count == |chain|
  {
    OrderedIsDistinct(digest, rows, chain);
    forall r ensures IsTip(rows, r) <==> chain != [] && r == chain[|chain| - 1] {
      TipIsLast(digest, rows, chain, r);
    }
    executor := ExecutorTip(rows);
    anchor, count := ControllerTip(rows);
    if chain != [] {
      assert IsTip(rows, chain[|chain| - 1]);
      assert Linked(digest, chain, |chain| - 1);
    }
  }

  // ------------------------------------------------------------- verification

  datatype Verification = Verification(ok: bool, verified: nat, confirmed: nat)

  /** `rows` is a linear ledger in some order, with every signature valid. */
  ghost predicate Sound(digest: Digest, signs: (Hash, Signature) -> bool, rows: seq<Receipt>) {
    && (forall r | r in rows :: signs(r.hash, r.signature))
    && exists chain :: Orders(digest, rows, chain)
  }

  lemma LinksDiffer(digest: Digest, rows: seq<Receipt>, chain: seq<Receipt>, r: Receipt, q: Receipt)
    requires Collisionless(digest) && Orders(digest, rows, chain) && r in rows && q in rows && r != q
    ensures r.payload.prevHash != q.payload.prevHash
  {
    assert r in chain && q in chain;
    var i :| 0 <= i < |chain| && chain[i] == r;
    var j :| 0 <= j < |chain| && chain[j] == q;
    if i < j { HashesDiffer(digest, chain, i, j); } else { HashesDiffer(digest, chain, j, i); }
  }

  /** Any chain order of the table starts with the receipts the walk has visited. */
  lemma {:induction false} WalkIsPrefix(digest: Digest, rows: seq<Receipt>, chain: seq<Receipt>, walked: seq<Receipt>)
    requires Orders(digest, rows, chain) && IsChain(digest, walked) && |walked| <= |chain|
    requires forall r | r in walked :: r in rows
    requires forall r, q | r in rows && q in rows && r.payload.prevHash == q.payload.prevHash :: r == q
    ensures walked == chain[..|walked|]
    decreases |walked|
  {
    if walked != [] {
      var n := |walked| - 1;
      ChainPrefix(digest, walked, n);
      WalkIsPrefix(digest, rows, chain, walked[..n]);
      assert walked[n] in walked && chain[n] in chain;
      assert Linked(digest, walked, n) && Linked(digest, chain, n);
      assert n > 0 ==> walked[..n][n - 1] == chain[..n][n - 1];
      assert walked[n] == chain[n];
    }
  }

  /** A walk that visited as many receipts as the table has visited all of them. */
  lemma FullWalkOrders(digest: Digest, rows: seq<Receipt>, walked: seq<Receipt>)
    requires Collisionless(digest) && Distinct(rows) && IsChain(digest, walked)
    requires |walked| == |rows| && forall r | r in walked :: r in rows
    ensures Orders(digest, rows, walked)
  {
    forall i, j | 0 <= i < j < |walked| ensures walked[i] != walked[j] { HashesDiffer(digest, walked, i, j); }
    DistinctCount(walked);
    DistinctCount(rows);
    var all, seen := set r | r in rows, set r | r in walked;
    assert seen <= all;
    if r :| r in all && r !in seen {
      assert seen <= all - {r};
      SubsetSize(seen, all - {r});
    }
    forall r ensures r in walked <==> r in rows { assert r in seen <==> r in all; }
  }

  /** In a linear ledger the walk finds its next receipt, hashed and linked as it must be. */
  lemma WalkContinues(digest: Digest, rows: seq<Receipt>, chain: seq<Receipt>, walked: seq<Receipt>)
      returns (r: Receipt)
    requires Orders(digest, rows, chain) && IsChain(digest, walked) && |walked| < |chain|
    requires forall r | r in walked :: r in rows
    requires forall r, q | r in rows && q in rows && r.payload.prevHash == q.payload.prevHash :: r == q
    ensures r in rows && r.payload.prevHash == TipHash(walked) && r.hash == digest(r.payload)
  {
    WalkIsPrefix(digest, rows, chain, walked);
    var n := |walked|;
    r := chain[n];
    assert r in chain && Linked(digest, chain, n);
    assert n > 0 ==> walked[n - 1] == chain[..n][n - 1];
  }

  /** Receipts by the hash they link to, unless two of them share one. */
  method IndexByPrev(rows: seq<Receipt>) returns (r: Option<map<Hash, Receipt>>)
    requires Distinct(rows)
    ensures r.None? ==> exists i, j :: 0 <= i < j < |rows| && rows[i].payload.prevHash == rows[j].payload.prevHash
    ensures r.Some? ==> forall q | q in rows :: q.payload.prevHash in r.value && r.value[q.payload.prevHash] == q
    ensures r.Some? ==> forall h | h in r.value :: r.value[h] in rows && r.value[h].payload.prevHash == h
  {
    var byPrev: map<Hash, Receipt> := map[];
    for i := 0 to |rows|
      invariant forall k | 0 <= k < i ::
        rows[k].payload.prevHash in byPrev && byPrev[rows[k].payload.prevHash] == rows[k]
      invariant forall h | h in byPrev :: byPrev[h] in rows[..i] && byPrev[h].payload.prevHash == h
    {
      if rows[i].payload.prevHash in byPrev {
        ghost var k :| 0 <= k < i && rows[k] == byPrev[rows[i].payload.prevHash];
        return None;
      }
      byPrev := byPrev[rows[i].payload.prevHash := rows[i]];
    }
    r := Some(byPrev);
  }

  lemma ForksAreUnsound(digest: Digest, signs: (Hash, Signature) -> bool, rows: seq<Receipt>, i: nat, j: nat)
    requires Collisionless(digest) && Distinct(rows) && i < j < |rows|
      && rows[i].payload.prevHash == rows[j].payload.prevHash
    ensures !Sound(digest, signs, rows)
  {
    forall chain ensures !Orders(digest, rows, chain) {
      if Orders(digest, rows, chain) { LinksDiffer(digest, rows, chain, rows[i], rows[j]); }
    }
  }

  /** In a sound table a walk that has not seen every row finds a signed, hashed receipt to go on with. */
  lemma SoundWalkContinues(digest: Digest, signs: (Hash, Signature) -> bool, rows: seq<Receipt>,
                           byPrev: map<Hash, Receipt>, walked: seq<Receipt>)
    requires Sound(digest, signs, rows) && IsChain(digest, walked) && |walked| < |rows|
    requires forall q | q in rows :: q.payload.prevHash in byPrev && byPrev[q.payload.prevHash] == q
    requires forall r | r in walked :: r in rows
    ensures
      var h := TipHash(walked);
      h in byPrev && digest(byPrev[h].payload) == byPrev[h].hash && signs(byPrev[h].hash, byPrev[h].signature)
  {
    var chain :| Orders(digest, rows, chain);
    var next := WalkContinues(digest, rows, chain, walked);
    assert byPrev[next.payload.prevHash] == next;
  }

  /**
   * Walks the previous-hash links from genesis. The walk accepts exactly the tables
   * whose rows can be ordered into one signed line from genesis.
   */
  method VerifyChain(digest: Digest, signs: (Hash, Signature) -> bool, rows: seq<Receipt>) returns (v: Verification)
    requires Collisionless(digest) && Distinct(rows)
    ensures v.ok <==> Sound(digest, signs, rows)
    ensures v.confirmed == |rows| && v.verified <= |rows| && (v.ok ==> v.verified == |rows|)
  {
    var index := IndexByPrev(rows);
    if index.None? {
      ghost var i, j :| 0 <= i < j < |rows| && rows[i].payload.prevHash == rows[j].payload.prevHash;
      ForksAreUnsound(digest, signs, rows, i, j);
      return Verification(false, 0, |rows|);
    }
    var byPrev, expectedPrev, verified := index.value, GENESIS, 0;
    ghost var walked: seq<Receipt> := [];
    while verified < |rows|
      invariant |walked| == verified <= |rows| && expectedPrev == TipHash(walked)
      invariant IsChain(digest, walked)
      invariant forall r | r in walked :: r in rows && signs(r.hash, r.signature)
    {
      if Sound(digest, signs, rows) { SoundWalkContinues(digest, signs, rows, byPrev, walked); }
      if expectedPrev !in byPrev
         || digest(byPrev[expectedPrev].payload) != byPrev[expectedPrev].hash
         || !signs(byPrev[expectedPrev].hash, byPrev[expectedPrev].signature) {
        return Verification(false, verified, |rows|);
      }
      var receipt := byPrev[expectedPrev];
      ChainExtends(digest, walked, receipt);
      walked, expectedPrev, verified := walked + [receipt], receipt.hash, verified + 1;
    }
    FullWalkOrders(digest, rows, walked);
    forall r | r in rows ensures signs(r.hash, r.signature) { assert r in walked; }
    v := Verification(true, verified, |rows|);
  }

  // ------------------------------------------------------------ such digests exist

  function Tally(n: nat): string { if n == 0 then "." else "|" + Tally(n - 1) }

  function Magnitude(n: int): nat { if n < 0 then -n else n }

  function Signed(n: int): string { (if n < 0 then "-" else "+") + Tally(Magnitude(n)) }

  function Text(s: string): string { if s == "" then "." else "x" + s[..1] + Text(s[1..]) }

  /** The payload written out in full, field after field, which is a digest without collisions. */
  function WrittenOut(p: Payload): string {
    Tally(p.id) + (Text(p.sourceType) + (Text(p.sourceId) + (Text(p.counts)
    + (Signed(p.signedAt) + (Signed(p.confirmedAt) + Text(p.prevHash))))))
  }

  lemma {:induction false} TallyReads(n: nat, m: nat, a: string, b: string)
    requires Tally(n) + a == Tally(m) + b
    ensures n == m && a == b
    decreases n
  {
    var left, right := Tally(n) + a, Tally(m) + b;
    assert left[0] == right[0];
    if n == 0 {
      assert left[1..] == a && right[1..] == b;
    } else {
      assert left[1..] == Tally(n - 1) + a && right[1..] == Tally(m - 1) + b;
      TallyReads(n - 1, m - 1, a, b);
    }
  }

  lemma SignAndTally(n: int, a: string)
    ensures (Signed(n) + a)[0] == (if n < 0 then '-' else '+') && (Signed(n) + a)[1..] == Tally(Magnitude(n)) + a
  {
  }

  lemma SignedReads(n: int, m: int, a: string, b: string)
    requires Signed(n) + a == Signed(m) + b
    ensures n == m && a == b
  {
    SignAndTally(n, a);
    SignAndTally(m, b);
    TallyReads(Magnitude(n), Magnitude(m), a, b);
  }

  lemma {:induction false} TextReads(s: string, t: string, a: string, b: string)
    requires Text(s) + a == Text(t) + b
    ensures s == t && a == b
    decreases |s|
  {
    var left, right := Text(s) + a, Text(t) + b;
    assert left[0] == right[0];
    if s == "" {
      assert left[1..] == a && right[1..] == b;
    } else {
      assert left[1] == s[0] && right[1] == t[0];
      assert left[2..] == Text(s[1..]) + a && right[2..] == Text(t[1..]) + b;
      TextReads(s[1..], t[1..], a, b);
      assert s == s[..1] + s[1..] && t == t[..1] + t[1..];
    }
  }

  lemma WrittenOutReads(p: Payload, q: Payload)
    requires WrittenOut(p) == WrittenOut(q)
    ensures p == q
  {
    var a5, b5 := Signed(p.confirmedAt) + Text(p.prevHash), Signed(q.confirmedAt) + Text(q.prevHash);
    var a4, b4 := Signed(p.signedAt) + a5, Signed(q.signedAt) + b5;
    var a3, b3 := Text(p.counts) + a4, Text(q.counts) + b4;
    var a2, b2 := Text(p.sourceId) + a3, Text(q.sourceId) + b3;
    var a1, b1 := Text(p.sourceType) + a2, Text(q.sourceType) + b2;
    TallyReads(p.id, q.id, a1, b1);
    TextReads(p.sourceType, q.sourceType, a2, b2);
    TextReads(p.sourceId, q.sourceId, a3, b3);
    TextReads(p.counts, q.counts, a4, b4);
    SignedReads(p.signedAt, q.signedAt, a5, b5);
    SignedReads(p.confirmedAt, q.confirmedAt, Text(p.prevHash), Text(q.prevHash));
    assert Text(p.prevHash) + "" == Text(q.prevHash) + "";
    TextReads(p.prevHash, q.prevHash, "", "");
  }

  /** What is assumed of the digest can be had. */
  lemma DigestsExist()
    ensures Collisionless(WrittenOut)
  {
    forall p, q | WrittenOut(p) == WrittenOut(q) ensures p == q { WrittenOutReads(p, q); }
    forall p ensures WrittenOut(p) != GENESIS && WrittenOut(p) != "" {
      assert WrittenOut(p)[0] == Tally(p.id)[0] && Tally(p.id)[0] in ".|";
    }
  }
}
