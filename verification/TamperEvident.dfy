/**
  The hash-chained log and its verifiers (logquill/plugins/tamper_evident_plugin.py). The digest, the serialisation
  of a record's content and the signature are parameters: nothing is assumed of them but that digests are 64
  characters long. Security claims are therefore reductions: where two accepted chains disagree, the lemma names
  two inputs hashed by the chains themselves that have the same digest.
 */
module TamperEvident {
  import opened OrderedDicts

  /** Any JSON-like value. */
  datatype Value = Null | Str(s: string) | Other(tag: int, text: string)

  /** A key that is absent is `None`. */
  datatype Record = Record(
    schemaVersion: Option<Value>,
    timestamp: Option<Value>,
    level: Option<Value>,
    logger: Option<Value>,
    message: Option<Value>,
    meta: map<string, Value>,
    llm: Option<Value>)

  /** What is serialised and hashed. */
  datatype Content = Content(
    schemaVersion: Option<Value>,
    timestamp: Value,
    level: Value,
    logger: Value,
    message: Value,
    meta: map<string, Value>,
    llm: Option<Value>)

  const LEGACY_SCHEMA_VERSION := Str("1.0")

  /** `record.get(key)`: an absent field and a null one hash the same. */
  function OrNull(field: Option<Value>): Value {
    if field.Some? then field.value else Null
  }

  /** `hash` and `prev_hash` are left out, and so is a schema version that only restates the legacy one. */
  function ContentOf(r: Record): Content {
    Content(if r.schemaVersion == Some(LEGACY_SCHEMA_VERSION) then None else r.schemaVersion,
            OrNull(r.timestamp), OrNull(r.level), OrNull(r.logger), OrNull(r.message), r.meta - {"hash", "prev_hash"}, r.llm)
  }

  /** Exactly which edits of a record leave its hashed content alone. */
  lemma WhatIsCovered(a: Record, b: Record)
    ensures ContentOf(a) == ContentOf(b) <==>
            && OrNull(a.timestamp) == OrNull(b.timestamp) && OrNull(a.level) == OrNull(b.level)
            && OrNull(a.logger) == OrNull(b.logger) && OrNull(a.message) == OrNull(b.message)
            && a.llm == b.llm
            && (a.schemaVersion == b.schemaVersion || {a.schemaVersion, b.schemaVersion} <= {None, Some(Str("1.0"))})
            && (forall k :: k !in {"hash", "prev_hash"} ==> (k in a.meta <==> k in b.meta))
            && (forall k :: k !in {"hash", "prev_hash"} && k in a.meta && k in b.meta ==> a.meta[k] == b.meta[k])
  {
    if ContentOf(a) == ContentOf(b) {
      forall k | k !in {"hash", "prev_hash"}
        ensures (k in a.meta <==> k in b.meta) && (k in a.meta && k in b.meta ==> a.meta[k] == b.meta[k])
      {
        assert k in a.meta <==> k in ContentOf(a).meta;
        assert k in b.meta <==> k in ContentOf(b).meta;
      }
    }
  }

  const HASH_LENGTH := 64

  /** The digest of a text, and the text a content is serialised to. */
  datatype Scheme = Scheme(digest: string -> string, dumps: Content -> string) {
    ghost predicate Valid() {
      forall x :: |digest(x)| == HASH_LENGTH
    }

    /** What is hashed for `r` when the chain stands at `prev`. */
    function Input(r: Record, prev: string): string {
      prev + dumps(ContentOf(r))
    }

    function ComputeHash(r: Record, prev: string): string {
      digest(Input(r, prev))
    }
  }

  // ---- Writing ----

  function Stamp(scheme: Scheme, r: Record, prev: string): Record {
    r.(meta := r.meta["prev_hash" := Str(prev)]["hash" := Str(scheme.ComputeHash(r, prev))])
  }

  function StampAll(scheme: Scheme, rs: seq<Record>, prev: string): seq<Record> {
    if rs == [] then []
    else [Stamp(scheme, rs[0], prev)] + StampAll(scheme, rs[1..], scheme.ComputeHash(rs[0], prev))
  }

  /** The head after stamping `rs` from `prev`. */
  function HeadAfter(scheme: Scheme, rs: seq<Record>, prev: string): string {
    if rs == [] then prev else HeadAfter(scheme, rs[1..], scheme.ComputeHash(rs[0], prev))
  }

  class TamperEvidentPlugin {
    const scheme: Scheme
    const genesisHash: string
    var lastHash: string
    /** Every record this instance was given. */
    ghost var seen: seq<Record>

    ghost predicate Valid()
      reads this
    {
      lastHash == HeadAfter(scheme, seen, genesisHash)
    }

    constructor (scheme: Scheme, genesisHash: string)
      ensures Valid() && seen == [] && this.scheme == scheme && this.genesisHash == genesisHash
    {
      this.scheme := scheme;
      this.genesisHash := genesisHash;
      lastHash := genesisHash;
      seen := [];
    }

    method BeforeLog(r: Record) returns (stamped: Record)
      requires Valid()
      modifies this
      ensures Valid() && seen == old(seen) + [r]
      ensures StampAll(scheme, seen, genesisHash) == old(StampAll(scheme, seen, genesisHash)) + [stamped]
      ensures stamped.(meta := r.meta) == r && stamped.meta.Keys == r.meta.Keys + {"hash", "prev_hash"}
      ensures forall k :: k in r.meta && k !in {"hash", "prev_hash"} ==> stamped.meta[k] == r.meta[k]
      ensures stamped.meta["prev_hash"] == Str(old(lastHash)) && stamped.meta["hash"] == Str(lastHash)
    {
      var prev := lastHash;
      var digest := scheme.ComputeHash(r, prev);
      stamped := r.(meta := r.meta["prev_hash" := Str(prev)]["hash" := Str(digest)]);
      lastHash := digest;
      StampAllAppend(scheme, seen, r, genesisHash);
      seen := seen + [r];
    }
  }

  lemma {:induction false} StampAllAppend(scheme: Scheme, rs: seq<Record>, r: Record, prev: string)
    ensures var head := HeadAfter(scheme, rs, prev);
            && StampAll(scheme, rs + [r], prev) == StampAll(scheme, rs, prev) + [Stamp(scheme, r, head)]
            && HeadAfter(scheme, rs + [r], prev) == scheme.ComputeHash(r, head)
  {
    if rs == [] {
      assert rs + [r] == [r];
    } else {
      assert (rs + [r])[1..] == rs[1..] + [r];
      StampAllAppend(scheme, rs[1..], r, scheme.ComputeHash(rs[0], prev));
    }
  }

  // ---- Verifying ----

  datatype Fault = NoHash | PrevMismatch | HashMismatch

  datatype VerificationResult = VerificationResult(ok: bool, recordsChecked: nat, brokenAt: Option<nat>, reason: Option<Reason>, headHash: Option<string>)

  datatype Reason = Broken(fault: Fault) | SignatureMismatch

  function MetaGet(r: Record, key: string): Option<Value> {
    if key in r.meta then Some(r.meta[key]) else None
  }

  /** The first thing wrong with `r` when the chain stands at `prev`. */
  function FaultOf(scheme: Scheme, r: Record, prev: string): Option<Fault> {
    if MetaGet(r, "hash") in {None, Some(Null)} then Some(NoHash)
    else if MetaGet(r, "prev_hash") != Some(Str(prev)) then Some(PrevMismatch)
    else if MetaGet(r, "hash") != Some(Str(scheme.ComputeHash(r, prev))) then Some(HashMismatch)
    else None
  }

  /** When each fault is found: the stored hash is looked for first, then the link, and then the content. */
  lemma FaultsAre(scheme: Scheme, r: Record, prev: string)
    ensures var missing := "hash" !in r.meta || r.meta["hash"] == Null;
            var linked := "prev_hash" in r.meta && r.meta["prev_hash"] == Str(prev);
            && (FaultOf(scheme, r, prev) == Some(NoHash) <==> missing)
            && (FaultOf(scheme, r, prev) == Some(PrevMismatch) <==> !missing && !linked)
            && (FaultOf(scheme, r, prev) == Some(HashMismatch) <==>
                !missing && linked && r.meta["hash"] != Str(scheme.digest(prev + scheme.dumps(ContentOf(r)))))
  {
  }

  /** The whole sequence is a chain from `prev`. */
  predicate Accepts(scheme: Scheme, rs: seq<Record>, prev: string) {
    rs == [] || (FaultOf(scheme, rs[0], prev).None? && Accepts(scheme, rs[1..], scheme.ComputeHash(rs[0], prev)))
  }

  /** Record `i` is the first that does not continue the chain, and this is why. */
  predicate BreaksAt(scheme: Scheme, rs: seq<Record>, genesis: string, i: nat, fault: Fault) {
    i < |rs| && Accepts(scheme, rs[..i], genesis) && FaultOf(scheme, rs[i], HeadAfter(scheme, rs[..i], genesis)) == Some(fault)
  }

  method VerifyChainDetailed(scheme: Scheme, records: seq<Record>, genesis: string) returns (r: VerificationResult)
    ensures r.ok <==> Accepts(scheme, records, genesis)
    ensures r.ok ==> r == VerificationResult(true, |records|, None, None, Some(HeadAfter(scheme, records, genesis)))
    ensures !r.ok ==>
              && 1 <= r.recordsChecked <= |records| && r.brokenAt == Some(r.recordsChecked)
              && !Accepts(scheme, records[..r.recordsChecked], genesis)
              && r.reason.Some? && r.reason.value.Broken?
              && BreaksAt(scheme, records, genesis, r.recordsChecked - 1, r.reason.value.fault)
              && r.headHash ==
                 if r.reason.value.fault.NoHash? && r.recordsChecked == 1 then None
                 else Some(HeadAfter(scheme, records[..r.recordsChecked - 1], genesis))
  {
    var prev := genesis;
    var checked := 0;
    assert records[..0] == [];
    while checked < |records|
      invariant checked <= |records|
      invariant Accepts(scheme, records[..checked], genesis)
      invariant prev == HeadAfter(scheme, records[..checked], genesis)
    {
      var record := records[checked];
      ExtendChain(scheme, records, checked, genesis);
      checked := checked + 1;
      var storedHash := MetaGet(record, "hash");
      var storedPrev := MetaGet(record, "prev_hash");
      if storedHash.None? || storedHash.value == Null {
        return VerificationResult(false, checked, Some(checked), Some(Broken(NoHash)), if checked > 1 then Some(prev) else None);
      }
      if storedPrev != Some(Str(prev)) {
        return VerificationResult(false, checked, Some(checked), Some(Broken(PrevMismatch)), Some(prev));
      }
      if Str(scheme.ComputeHash(record, prev)) != storedHash.value {
        return VerificationResult(false, checked, Some(checked), Some(Broken(HashMismatch)), Some(prev));
      }
      prev := storedHash.value.s;
    }
    assert records[..checked] == records;
    return VerificationResult(true, checked, None, None, Some(prev));
  }

  /** Composition: `a ++ b` is a chain from `prev` exactly when `a` is and `b` is one from the head of `a`. */
  lemma {:induction false} AcceptsConcat(scheme: Scheme, a: seq<Record>, b: seq<Record>, prev: string)
    ensures Accepts(scheme, a + b, prev) <==> Accepts(scheme, a, prev) && Accepts(scheme, b, HeadAfter(scheme, a, prev))
    ensures HeadAfter(scheme, a + b, prev) == HeadAfter(scheme, b, HeadAfter(scheme, a, prev))
  {
    if a == [] {
      assert a + b == b;
    } else {
      assert (a + b)[1..] == a[1..] + b;
      AcceptsConcat(scheme, a[1..], b, scheme.ComputeHash(a[0], prev));
    }
  }

  /** One more record keeps the chain exactly when it has no fault, and a broken prefix never recovers. */
  lemma ExtendChain(scheme: Scheme, rs: seq<Record>, k: nat, genesis: string)
    requires k < |rs| && Accepts(scheme, rs[..k], genesis)
    ensures var head := HeadAfter(scheme, rs[..k], genesis);
            && (Accepts(scheme, rs[..k + 1], genesis) <==> FaultOf(scheme, rs[k], head).None?)
            && HeadAfter(scheme, rs[..k + 1], genesis) == scheme.ComputeHash(rs[k], head)
            && (Accepts(scheme, rs, genesis) ==> FaultOf(scheme, rs[k], head).None?)
  {
    var head := HeadAfter(scheme, rs[..k], genesis);
    assert rs[..k + 1] == rs[..k] + [rs[k]];
    AcceptsConcat(scheme, rs[..k], [rs[k]], genesis);
    assert [rs[k]][1..] == [];
    assert rs == rs[..k + 1] + rs[k + 1..];
    AcceptsConcat(scheme, rs[..k + 1], rs[k + 1..], genesis);
  }

  /** What the verifier reports is determined: there is one first break, with one reason, and an accepted chain has none. */
  lemma BreakIsUnique(scheme: Scheme, rs: seq<Record>, genesis: string, i: nat, fault: Fault)
    requires BreaksAt(scheme, rs, genesis, i, fault)
    ensures !Accepts(scheme, rs, genesis)
    ensures forall j: nat, other :: BreaksAt(scheme, rs, genesis, j, other) ==> j == i && other == fault
  {
    ExtendChain(scheme, rs, i, genesis);
    forall j: nat, other | BreaksAt(scheme, rs, genesis, j, other)
      ensures j == i && other == fault
    {
      var first, second := if i < j then i else j, if i < j then j else i;
      if first < second {
        assert rs[..second][..first] == rs[..first];
        ExtendChain(scheme, rs[..second], first, genesis);
      }
    }
  }

  lemma AcceptedAt(scheme: Scheme, rs: seq<Record>, genesis: string, i: nat)
    requires Accepts(scheme, rs, genesis) && i < |rs|
    ensures Accepts(scheme, rs[..i], genesis) && FaultOf(scheme, rs[i], HeadAfter(scheme, rs[..i], genesis)).None?
  {
    assert rs == rs[..i] + rs[i..];
    AcceptsConcat(scheme, rs[..i], rs[i..], genesis);
  }

  /** Completeness: what one plugin instance stamps is accepted, with the plugin's head. */
  lemma {:induction false} StampedAccepted(scheme: Scheme, rs: seq<Record>, prev: string)
    ensures Accepts(scheme, StampAll(scheme, rs, prev), prev)
    ensures HeadAfter(scheme, StampAll(scheme, rs, prev), prev) == HeadAfter(scheme, rs, prev)
  {
    if rs != [] {
      var s := Stamp(scheme, rs[0], prev);
      assert s.meta - {"hash", "prev_hash"} == rs[0].meta - {"hash", "prev_hash"};
      assert ContentOf(s) == ContentOf(rs[0]);
      StampedAccepted(scheme, rs[1..], scheme.ComputeHash(rs[0], prev));
    }
  }

  // ---- Tamper evidence ----

  /** The chain's state before record `i`. */
  function HeadBefore(scheme: Scheme, rs: seq<Record>, genesis: string, i: nat): string
    requires i <= |rs|
  {
    HeadAfter(scheme, rs[..i], genesis)
  }

  /** The text hashed for record `i`. */
  function InputAt(scheme: Scheme, rs: seq<Record>, genesis: string, i: nat): string
    requires i < |rs|
  {
    scheme.Input(rs[i], HeadBefore(scheme, rs, genesis, i))
  }

  /** A way in which the digest failed: a collision between texts hashed by the two chains, or a preimage of the genesis. */
  datatype Break = Collision(i: nat, j: nat) | GenesisOfA(i: nat) | GenesisOfB(j: nat)

  ghost predicate IsBreak(scheme: Scheme, a: seq<Record>, b: seq<Record>, genesis: string, w: Break) {
    match w
    case Collision(i, j) =>
      && i < |a| && j < |b|
      && InputAt(scheme, a, genesis, i) != InputAt(scheme, b, genesis, j)
      && scheme.digest(InputAt(scheme, a, genesis, i)) == scheme.digest(InputAt(scheme, b, genesis, j))
    case GenesisOfA(i) => i < |a| && scheme.digest(InputAt(scheme, a, genesis, i)) == genesis
    case GenesisOfB(j) => j < |b| && scheme.digest(InputAt(scheme, b, genesis, j)) == genesis
  }

  /** Equal record by record in what is hashed. */
  ghost predicate SameContents(scheme: Scheme, a: seq<Record>, b: seq<Record>) {
    |a| == |b| && forall i :: 0 <= i < |a| ==> scheme.dumps(ContentOf(a[i])) == scheme.dumps(ContentOf(b[i]))
  }

  lemma HeadStep(scheme: Scheme, rs: seq<Record>, genesis: string, i: nat)
    requires i < |rs|
    ensures HeadBefore(scheme, rs, genesis, i + 1) == scheme.digest(InputAt(scheme, rs, genesis, i))
  {
    assert rs[..i + 1] == rs[..i] + [rs[i]];
    StampAllAppend(scheme, rs[..i], rs[i], genesis);
  }

  lemma HeadLength(scheme: Scheme, rs: seq<Record>, genesis: string, i: nat)
    requires scheme.Valid() && |genesis| == HASH_LENGTH && i <= |rs|
    ensures |HeadBefore(scheme, rs, genesis, i)| == HASH_LENGTH
  {
    if i > 0 {
      HeadStep(scheme, rs, genesis, i - 1);
    }
  }

  /** Walk both chains back from a common head; where they first disagree, the digest has been broken. */
  lemma {:induction false} Compare(scheme: Scheme, a: seq<Record>, b: seq<Record>, genesis: string, i: nat, j: nat)
    returns (w: Option<Break>)
    requires scheme.Valid() && |genesis| == HASH_LENGTH
    requires i <= |a| && j <= |b|
    requires HeadBefore(scheme, a, genesis, i) == HeadBefore(scheme, b, genesis, j)
    ensures w.Some? ==> IsBreak(scheme, a, b, genesis, w.value)
    ensures w.None? ==> i == j
    ensures w.None? ==> forall k :: 0 <= k < i ==> scheme.dumps(ContentOf(a[k])) == scheme.dumps(ContentOf(b[k]))
    decreases i
  {
    if i == 0 && j == 0 {
      w := None;
    } else if i == 0 {
      HeadStep(scheme, b, genesis, j - 1);
      w := Some(GenesisOfB(j - 1));
    } else if j == 0 {
      HeadStep(scheme, a, genesis, i - 1);
      w := Some(GenesisOfA(i - 1));
    } else {
      HeadStep(scheme, a, genesis, i - 1);
      HeadStep(scheme, b, genesis, j - 1);
      var x, y := InputAt(scheme, a, genesis, i - 1), InputAt(scheme, b, genesis, j - 1);
      if x != y {
        w := Some(Collision(i - 1, j - 1));
      } else {
        HeadLength(scheme, a, genesis, i - 1);
        HeadLength(scheme, b, genesis, j - 1);
        SplitInput(HeadBefore(scheme, a, genesis, i - 1), scheme.dumps(ContentOf(a[i - 1])),
                   HeadBefore(scheme, b, genesis, j - 1), scheme.dumps(ContentOf(b[j - 1])));
        w := Compare(scheme, a, b, genesis, i - 1, j - 1);
      }
    }
  }

  /** Digests have a fixed length, so a hashed text splits in only one way. */
  lemma SplitInput(p: string, x: string, q: string, y: string)
    requires |p| == |q| && p + x == q + y
    ensures p == q && x == y
  {
    assert (p + x)[..|p|] == p && (q + y)[..|p|] == q;
    assert (p + x)[|p|..] == x && (q + y)[|p|..] == y;
  }

  /**
    Two sequences with the same head have the same contents record by record, or the digest is broken by inputs
    that occur in the two chains. Chains are walked whether or not they carry correct stored hashes; for accepted
    ones the head is the one the verifier reports.
   */
  lemma {:induction false} TamperEvidence(scheme: Scheme, a: seq<Record>, b: seq<Record>, genesis: string)
    returns (w: Option<Break>)
    requires scheme.Valid() && |genesis| == HASH_LENGTH
    requires HeadAfter(scheme, a, genesis) == HeadAfter(scheme, b, genesis)
    ensures w.Some? ==> IsBreak(scheme, a, b, genesis, w.value)
    ensures w.None? ==> SameContents(scheme, a, b)
  {
    assert a[..|a|] == a && b[..|b|] == b;
    w := Compare(scheme, a, b, genesis, |a|, |b|);
  }

  // ---- Where tampering shows ----

  /** The content of record `i` is replaced. */
  ghost predicate Edits(scheme: Scheme, rs: seq<Record>, i: nat, r: Record) {
    i < |rs| && scheme.dumps(ContentOf(r)) != scheme.dumps(ContentOf(rs[i]))
  }

  lemma EditedInput(scheme: Scheme, rs: seq<Record>, genesis: string, i: nat, r: Record)
    requires Edits(scheme, rs, i, r)
    ensures var edited := rs[i := r];
            && edited[..i] == rs[..i]
            && InputAt(scheme, edited, genesis, i) != InputAt(scheme, rs, genesis, i)
            && (HeadBefore(scheme, edited, genesis, i + 1) == HeadBefore(scheme, rs, genesis, i + 1) ==>
                IsBreak(scheme, edited, rs, genesis, Collision(i, i)))
  {
    var edited, head := rs[i := r], HeadBefore(scheme, rs, genesis, i);
    assert edited[..i] == rs[..i];
    if InputAt(scheme, edited, genesis, i) == InputAt(scheme, rs, genesis, i) {
      SplitInput(head, scheme.dumps(ContentOf(r)), head, scheme.dumps(ContentOf(rs[i])));
    }
    HeadStep(scheme, edited, genesis, i);
    HeadStep(scheme, rs, genesis, i);
  }

  /** A record edited in place breaks an accepted chain right there, unless it collides with the original. */
  lemma {:induction false} EditBreaksThere(scheme: Scheme, rs: seq<Record>, genesis: string, i: nat, r: Record)
    requires Accepts(scheme, rs, genesis) && Edits(scheme, rs, i, r)
    requires MetaGet(r, "hash") == MetaGet(rs[i], "hash") && MetaGet(r, "prev_hash") == MetaGet(rs[i], "prev_hash")
    ensures || BreaksAt(scheme, rs[i := r], genesis, i, HashMismatch)
            || IsBreak(scheme, rs[i := r], rs, genesis, Collision(i, i))
  {
    EditedInput(scheme, rs, genesis, i, r);
    AcceptedAt(scheme, rs, genesis, i);
  }

  /** If its stored hashes are forged as well, the chain breaks there or at the next record; at the end it may not. */
  lemma {:induction false} ResealedEditBreaksNext(scheme: Scheme, rs: seq<Record>, genesis: string, i: nat, r: Record)
    requires Accepts(scheme, rs, genesis) && Edits(scheme, rs, i, r)
    ensures var edited := rs[i := r];
            || (exists fault :: BreaksAt(scheme, edited, genesis, i, fault))
            || BreaksAt(scheme, edited, genesis, i + 1, PrevMismatch)
            || i + 1 == |rs|
            || IsBreak(scheme, edited, rs, genesis, Collision(i, i))
  {
    var edited := rs[i := r];
    EditedInput(scheme, rs, genesis, i, r);
    AcceptedAt(scheme, rs, genesis, i);
    var fault := FaultOf(scheme, r, HeadBefore(scheme, edited, genesis, i));
    if fault.Some? {
      assert BreaksAt(scheme, edited, genesis, i, fault.value);
    } else if i + 1 < |rs| {
      ExtendChain(scheme, edited, i, genesis);
      AcceptedAt(scheme, rs, genesis, i + 1);
    }
  }

  /**
    Deleting records from an accepted chain, if any record follows, breaks it at that record, whose stored previous
    hash no longer fits; or the digest has been broken.
   */
  lemma {:induction false} DeletionBreaksThere(scheme: Scheme, rs: seq<Record>, genesis: string, i: nat, j: nat)
    returns (w: Option<Break>)
    requires scheme.Valid() && |genesis| == HASH_LENGTH
    requires Accepts(scheme, rs, genesis) && i < j < |rs|
    ensures || BreaksAt(scheme, rs[..i] + rs[j..], genesis, i, PrevMismatch)
            || (w.Some? && IsBreak(scheme, rs[..j], rs[..i], genesis, w.value))
  {
    var deleted := rs[..i] + rs[j..];
    AcceptedAt(scheme, rs, genesis, i);
    AcceptedAt(scheme, rs, genesis, j);
    assert deleted[..i] == rs[..i] && deleted[i] == rs[j];
    w := None;
    if HeadAfter(scheme, rs[..j], genesis) == HeadAfter(scheme, rs[..i], genesis) {
      w := TamperEvidence(scheme, rs[..j], rs[..i], genesis);
    }
  }

  /**
    Whatever is put in place of the first `j` records of an accepted chain (edited, dropped, inserted or reordered
    records, with any stored hashes), it is accepted before the rest only with the same contents, or the digest has
    been broken.
   */
  lemma {:induction false} OnlySamePastFits(scheme: Scheme, rs: seq<Record>, genesis: string, j: nat, past: seq<Record>)
    returns (w: Option<Break>)
    requires scheme.Valid() && |genesis| == HASH_LENGTH
    requires Accepts(scheme, rs, genesis) && j < |rs|
    requires Accepts(scheme, past + rs[j..], genesis)
    ensures w.Some? ==> IsBreak(scheme, past, rs[..j], genesis, w.value)
    ensures w.None? ==> SameContents(scheme, past, rs[..j])
  {
    AcceptedAt(scheme, rs, genesis, j);
    AcceptsConcat(scheme, past, rs[j..], genesis);
    w := TamperEvidence(scheme, past, rs[..j], genesis);
  }

  // ---- Signed heads ----

  /** `verify_signed_chain`, with the signature of a head under a fixed key as a function. */
  method VerifySignedChain(scheme: Scheme, sign: string -> string, records: seq<Record>, signature: string,
                           genesis: string)
    returns (r: VerificationResult)
    ensures r.ok <==> Accepts(scheme, records, genesis) && sign(HeadAfter(scheme, records, genesis)) == signature
    ensures Accepts(scheme, records, genesis) ==>
              && r.recordsChecked == |records| && r.headHash == Some(HeadAfter(scheme, records, genesis))
              && (!r.ok ==> r.brokenAt == Some(|records|) && r.reason == Some(SignatureMismatch))
    ensures r.ok ==> r.brokenAt == None && r.reason == None
    ensures r.reason == Some(SignatureMismatch) <==>
              Accepts(scheme, records, genesis) && sign(HeadAfter(scheme, records, genesis)) != signature
    ensures !Accepts(scheme, records, genesis) ==>
              && 1 <= r.recordsChecked <= |records| && r.brokenAt == Some(r.recordsChecked)
              && r.reason.Some? && r.reason.value.Broken?
              && BreaksAt(scheme, records, genesis, r.recordsChecked - 1, r.reason.value.fault)
              && r.headHash ==
                 if r.reason.value.fault.NoHash? && r.recordsChecked == 1 then None
                 else Some(HeadAfter(scheme, records[..r.recordsChecked - 1], genesis))
  {
    r := VerifyChainDetailed(scheme, records, genesis);
    if !r.ok {
      return;
    }
    if r.headHash.None? || sign(r.headHash.value) != signature {
      return VerificationResult(false, r.recordsChecked, Some(r.recordsChecked), Some(SignatureMismatch), r.headHash);
    }
  }

  /**
    A signature taken over the head of `written` accepts another sequence only if that sequence has the same
    contents, or the digest is broken, or the signature of a different head came out the same.
   */
  lemma {:induction false} SignedHeadRulesOutReplacement(scheme: Scheme, sign: string -> string,
                                                         written: seq<Record>, read: seq<Record>, genesis: string)
    returns (w: Option<Break>)
    requires scheme.Valid() && |genesis| == HASH_LENGTH
    requires Accepts(scheme, read, genesis)
    requires sign(HeadAfter(scheme, read, genesis)) == sign(HeadAfter(scheme, written, genesis))
    ensures var forged := HeadAfter(scheme, read, genesis) != HeadAfter(scheme, written, genesis);
            || forged
            || (w.Some? && IsBreak(scheme, written, read, genesis, w.value))
            || SameContents(scheme, written, read)
  {
    w := None;
    if HeadAfter(scheme, read, genesis) == HeadAfter(scheme, written, genesis) {
      w := TamperEvidence(scheme, written, read, genesis);
    }
  }

  /** Truncation: a proper prefix of a chain has a different head, or the digest is broken. */
  lemma {:induction false} TruncationDetected(scheme: Scheme, rs: seq<Record>, k: nat, genesis: string)
    returns (w: Option<Break>)
    requires scheme.Valid() && |genesis| == HASH_LENGTH && k < |rs|
    ensures HeadAfter(scheme, rs[..k], genesis) != HeadAfter(scheme, rs, genesis) ||
            (w.Some? && IsBreak(scheme, rs, rs[..k], genesis, w.value))
  {
    w := None;
    if HeadAfter(scheme, rs[..k], genesis) == HeadAfter(scheme, rs, genesis) {
      w := TamperEvidence(scheme, rs, rs[..k], genesis);
    }
  }
}
