/**
 Signing-key manifests of Telegram Login and their rotation over time.

 Times and durations are integers of nanoseconds.  A retiring key stays in the manifest until its
 publish_until, which is written in RFC 3339 with whole seconds and so loses the fraction.
 */
module KeyRotation {
  const SECOND: int := 1000000000
  const MINUTE: int := 60 * SECOND
  const HOUR: int := 60 * MINUTE
  const RETIREMENT_MARGIN: int := 10 * MINUTE
  const MAX_KEYS: int := 32

  datatype Algorithm = RS256 | ES256 | EdDSA | ES256K

  const ALGORITHMS: set<Algorithm> := {RS256, ES256, EdDSA}

  /** The publish_until text: absent, a time that parses, or text that does not. */
  datatype Stamp = Absent | At(time: int) | Malformed

  /** time.RFC3339 keeps whole seconds only. */
  function Format(t: int): Stamp {
    At(t - t % SECOND)
  }

  datatype Key = Key(algorithm: Algorithm, kid: string, file: string, active: bool, publishUntil: Stamp)

  datatype Manifest = Manifest(version: int, keys: seq<Key>)

  function FileOf(kid: string): string {
    "signing-" + kid + ".pem"
  }

  lemma FileOfInjective(a: string, b: string)
    requires FileOf(a) == FileOf(b)
    ensures a == b
  {
    assert |a| == |b|;
    assert forall i | 0 <= i < |a| :: FileOf(a)[8 + i] == a[i] && FileOf(b)[8 + i] == b[i];
  }

  function NewKey(algorithm: Algorithm, kid: string): Key {
    Key(algorithm, kid, FileOf(kid), true, Absent)
  }

  // ----- one rotation

  predicate Expired(k: Key, now: int) {
    !k.active && k.publishUntil.At? && k.publishUntil.time <= now
  }

  function Retire(k: Key, algorithm: Algorithm, now: int, publishFor: int): Key {
    if k.active && k.algorithm == algorithm then k.(active := false, publishUntil := Format(now + publishFor)) else k
  }

  /** The keys that a rotation keeps, with the rotated algorithm's active key retired. */
  function Kept(keys: seq<Key>, algorithm: Algorithm, now: int, publishFor: int): seq<Key> {
    if keys == [] then []
    else
      var init, last := keys[..|keys| - 1], keys[|keys| - 1];
      Kept(init, algorithm, now, publishFor) +
      if Expired(last, now) then [] else [Retire(last, algorithm, now, publishFor)]
  }

  function ActiveCount(keys: seq<Key>, algorithm: Algorithm): nat {
    if keys == [] then 0
    else
      var init, last := keys[..|keys| - 1], keys[|keys| - 1];
      ActiveCount(init, algorithm) + if last.active && last.algorithm == algorithm then 1 else 0
  }

  predicate WellStamped(keys: seq<Key>) {
    forall i | 0 <= i < |keys| :: keys[i].active || !keys[i].publishUntil.Malformed?
  }

  function Rotated(m: Manifest, algorithm: Algorithm, publishFor: int, now: int, kid: string): Manifest {
    Manifest(1, Kept(m.keys, algorithm, now, publishFor) + [NewKey(algorithm, kid)])
  }

  /** The conditions rotateSigning and generateSigningKey check, in the order of the code. */
  predicate CanRotate(m: Manifest, files: set<string>, algorithm: Algorithm, kid: string) {
    && algorithm in ALGORITHMS
    && m.version == 1 && 0 < |m.keys| < MAX_KEYS
    && WellStamped(m.keys) && ActiveCount(m.keys, algorithm) == 1
    && FileOf(kid) !in files
  }

  /** The bounds run puts on the durations of a rotation. */
  predicate DurationsAccepted(publishFor: int, idTokenTTL: int) {
    MINUTE <= idTokenTTL <= 24 * HOUR && idTokenTTL + RETIREMENT_MARGIN <= publishFor <= 90 * 24 * HOUR
  }

  // ----- good manifests

  predicate DistinctKids(keys: seq<Key>) {
    forall i, j | 0 <= i < j < |keys| :: keys[i].kid != keys[j].kid
  }

  /** What holds of every manifest this program writes. */
  ghost predicate Good(m: Manifest, files: set<string>) {
    && m.version == 1 && |m.keys| <= MAX_KEYS
    && (forall a | a in ALGORITHMS :: ActiveCount(m.keys, a) == 1)
    && (forall i {:trigger m.keys[i]} | 0 <= i < |m.keys| :: GoodKey(m.keys[i], files))
    && DistinctKids(m.keys)
  }

  /** A key has a publish_until exactly if it is retiring, and its file has been written. */
  predicate GoodKey(k: Key, files: set<string>) {
    && k.algorithm in ALGORITHMS
    && (if k.active then k.publishUntil == Absent else k.publishUntil.At?)
    && k.file == FileOf(k.kid) && k.file in files
  }

  /** What LoadSigningKeyRing demands before a manifest is put in place. */
  ghost predicate RingLoads(m: Manifest, files: set<string>) {
    && m.version == 1 && 0 < |m.keys| <= MAX_KEYS
    && (forall k | k in m.keys ::
         k.file in files && (k.active ==> k.publishUntil == Absent) && (!k.active ==> k.publishUntil.At?))
    && DistinctKids(m.keys)
    && (forall a {:trigger ActiveCount(m.keys, a)} :: ActiveCount(m.keys, a) <= 1)
    && (exists k :: k in m.keys && k.active)
  }

  lemma {:induction false} ActiveExists(keys: seq<Key>, a: Algorithm)
    ensures ActiveCount(keys, a) > 0 <==> exists k :: k in keys && k.active && k.algorithm == a
  {
    if keys != [] {
      var n := |keys| - 1;
      ActiveExists(keys[..n], a);
      assert forall k :: k in keys <==> k in keys[..n] || k == keys[n];
    }
  }

  /** The validation of a generated manifest never fails. */
  lemma GoodLoads(m: Manifest, files: set<string>)
    requires Good(m, files)
    ensures RingLoads(m, files)
  {
    assert ActiveCount(m.keys, RS256) == 1;
    ActiveExists(m.keys, RS256);
    forall a: Algorithm
      ensures ActiveCount(m.keys, a) <= 1
    {
      ActiveExists(m.keys, a);
    }
  }

  lemma ActiveCountPush(keys: seq<Key>, k: Key, a: Algorithm)
    ensures ActiveCount(keys + [k], a) == ActiveCount(keys, a) + if k.active && k.algorithm == a then 1 else 0
  {
    assert (keys + [k])[..|keys|] == keys;
  }

  lemma KeptPush(keys: seq<Key>, k: Key, algorithm: Algorithm, now: int, publishFor: int)
    ensures var kept := Kept(keys, algorithm, now, publishFor);
            Kept(keys + [k], algorithm, now, publishFor) ==
            if Expired(k, now) then kept else kept + [Retire(k, algorithm, now, publishFor)]
  {
    assert (keys + [k])[..|keys|] == keys;
  }

  lemma {:induction false} KeptActive(keys: seq<Key>, algorithm: Algorithm, now: int, publishFor: int, a: Algorithm)
    ensures ActiveCount(Kept(keys, algorithm, now, publishFor), a) == if a == algorithm then 0 else ActiveCount(keys, a)
  {
    if keys != [] {
      var init, last := keys[..|keys| - 1], keys[|keys| - 1];
      KeptActive(init, algorithm, now, publishFor, a);
      assert keys == init + [last];
      KeptPush(init, last, algorithm, now, publishFor);
      if Expired(last, now) {
        ActiveCountPush(init, last, a);
      } else {
        KeptActivePush(Kept(init, algorithm, now, publishFor), init, last, algorithm, now, publishFor, a);
      }
    }
  }

  lemma KeptActivePush(kept: seq<Key>, keys: seq<Key>, k: Key, algorithm: Algorithm, now: int, publishFor: int,
                       a: Algorithm)
    requires ActiveCount(kept, a) == if a == algorithm then 0 else ActiveCount(keys, a)
    ensures ActiveCount(kept + [Retire(k, algorithm, now, publishFor)], a) ==
              if a == algorithm then 0 else ActiveCount(keys + [k], a)
  {
    ActiveCountPush(keys, k, a);
    ActiveCountPush(kept, Retire(k, algorithm, now, publishFor), a);
  }

  /** `k` is what is left of some unexpired key of the manifest. */
  ghost predicate StemsFrom(k: Key, keys: seq<Key>, algorithm: Algorithm, now: int, publishFor: int) {
    exists o :: o in keys && !Expired(o, now) && k == Retire(o, algorithm, now, publishFor)
  }

  lemma {:induction false} KeptStems(keys: seq<Key>, algorithm: Algorithm, now: int, publishFor: int)
    ensures |Kept(keys, algorithm, now, publishFor)| <= |keys|
    ensures forall k | k in Kept(keys, algorithm, now, publishFor) :: StemsFrom(k, keys, algorithm, now, publishFor)
  {
    if keys != [] {
      var init, last := keys[..|keys| - 1], keys[|keys| - 1];
      KeptStems(init, algorithm, now, publishFor);
      forall k | k in Kept(keys, algorithm, now, publishFor)
        ensures StemsFrom(k, keys, algorithm, now, publishFor)
      {
        if k in Kept(init, algorithm, now, publishFor) {
          var o :| o in init && !Expired(o, now) && k == Retire(o, algorithm, now, publishFor);
          assert o in keys;
        } else {
          assert last in keys;
        }
      }
    }
  }

  /** A key leaves the manifest only when it has expired. */
  lemma {:induction false} UnexpiredIsKept(keys: seq<Key>, algorithm: Algorithm, now: int, publishFor: int, o: Key)
    requires o in keys && !Expired(o, now)
    ensures Retire(o, algorithm, now, publishFor) in Kept(keys, algorithm, now, publishFor)
  {
    var init, last := keys[..|keys| - 1], keys[|keys| - 1];
    if o in init {
      UnexpiredIsKept(init, algorithm, now, publishFor, o);
    }
  }

  /** What a rotation makes of a key that it keeps, in nanoseconds with the fraction of a second cut off. */
  predicate WrittenBack(k': Key, k: Key, algorithm: Algorithm, now: int, publishFor: int) {
    if k.active && k.algorithm == algorithm then
      k' == k.(active := false, publishUntil := At(1000000000 * ((now + publishFor) / 1000000000)))
    else k' == k
  }

  predicate Increasing(at: seq<nat>, n: nat) {
    (forall i | 0 <= i < |at| :: at[i] < n) && forall i, j | 0 <= i < j < |at| :: at[i] < at[j]
  }

  /** These are the positions of the keys that are active or whose publish_until has not come. */
  predicate Unexpired(keys: seq<Key>, at: seq<nat>, now: int) {
    forall j: nat | j < |keys| ::
      j in at <==> keys[j].active || !keys[j].publishUntil.At? || now < keys[j].publishUntil.time
  }

  ghost predicate AllWrittenBack(kept: seq<Key>, keys: seq<Key>, at: seq<nat>, algorithm: Algorithm, now: int,
                                 publishFor: int)
  {
    && |at| == |kept|
    && forall i | 0 <= i < |at| :: at[i] < |keys| && WrittenBack(kept[i], keys[at[i]], algorithm, now, publishFor)
  }

  /** Exactly which keys a rotation writes back: the unexpired ones, in their order. */
  lemma {:induction false} KeptIsSubsequence(keys: seq<Key>, algorithm: Algorithm, now: int, publishFor: int)
    returns (at: seq<nat>)
    ensures Increasing(at, |keys|) && Unexpired(keys, at, now)
    ensures AllWrittenBack(Kept(keys, algorithm, now, publishFor), keys, at, algorithm, now, publishFor)
  {
    if keys == [] {
      at := [];
    } else {
      var init, last := keys[..|keys| - 1], keys[|keys| - 1];
      var before := KeptIsSubsequence(init, algorithm, now, publishFor);
      assert keys == init + [last];
      KeptPush(init, last, algorithm, now, publishFor);
      OneMoreUnexpired(keys, before, now);
      OneMoreWrittenBack(Kept(init, algorithm, now, publishFor), keys, before, algorithm, now, publishFor);
      if Expired(last, now) {
        at := before;
      } else {
        at := before + [|keys| - 1];
      }
    }
  }

  lemma OneMoreUnexpired(keys: seq<Key>, before: seq<nat>, now: int)
    requires keys != [] && Increasing(before, |keys| - 1) && Unexpired(keys[..|keys| - 1], before, now)
    ensures var at := if Expired(keys[|keys| - 1], now) then before else before + [|keys| - 1];
            Increasing(at, |keys|) && Unexpired(keys, at, now)
  {
    var n := |keys| - 1;
    var at := if Expired(keys[n], now) then before else before + [n];
    forall j: nat | j < n
      ensures j in at <==> keys[j].active || !keys[j].publishUntil.At? || now < keys[j].publishUntil.time
    {
      assert keys[..n][j] == keys[j];
    }
  }

  lemma OneMoreWrittenBack(kept: seq<Key>, keys: seq<Key>, at: seq<nat>, algorithm: Algorithm, now: int,
                           publishFor: int)
    requires keys != [] && AllWrittenBack(kept, keys[..|keys| - 1], at, algorithm, now, publishFor)
    ensures AllWrittenBack(kept, keys, at, algorithm, now, publishFor)
    ensures AllWrittenBack(kept + [Retire(keys[|keys| - 1], algorithm, now, publishFor)], keys, at + [|keys| - 1],
                           algorithm, now, publishFor)
  {
    WholeSeconds(now + publishFor);
  }

  lemma WholeSeconds(t: int)
    ensures Format(t) == At(1000000000 * (t / 1000000000))
  {
  }

  lemma {:induction false} KeptDistinct(keys: seq<Key>, algorithm: Algorithm, now: int, publishFor: int)
    requires DistinctKids(keys)
    ensures DistinctKids(Kept(keys, algorithm, now, publishFor))
  {
    if keys != [] {
      var n := |keys| - 1;
      var init, last := keys[..n], keys[n];
      KeptDistinct(init, algorithm, now, publishFor);
      KeptStems(init, algorithm, now, publishFor);
      forall k | k in Kept(init, algorithm, now, publishFor)
        ensures k.kid != last.kid
      {
        var o :| o in init && !Expired(o, now) && k == Retire(o, algorithm, now, publishFor);
        var i :| 0 <= i < n && keys[i] == o;
      }
    }
  }

  lemma RotatedActive(m: Manifest, algorithm: Algorithm, publishFor: int, now: int, kid: string, a: Algorithm)
    ensures ActiveCount(Rotated(m, algorithm, publishFor, now, kid).keys, a) ==
            if a == algorithm then 1 else ActiveCount(m.keys, a)
  {
    var kept := Kept(m.keys, algorithm, now, publishFor);
    assert (kept + [NewKey(algorithm, kid)])[..|kept|] == kept;
    KeptActive(m.keys, algorithm, now, publishFor, a);
  }

  lemma KeptAreGood(keys: seq<Key>, files: set<string>, algorithm: Algorithm, now: int, publishFor: int, kid: string)
    requires forall k | k in keys :: GoodKey(k, files)
    requires FileOf(kid) !in files
    ensures forall k | k in Kept(keys, algorithm, now, publishFor) :: GoodKey(k, files) && k.kid != kid
  {
    KeptStems(keys, algorithm, now, publishFor);
    forall k | k in Kept(keys, algorithm, now, publishFor)
      ensures GoodKey(k, files) && k.kid != kid
    {
      var o :| o in keys && !Expired(o, now) && k == Retire(o, algorithm, now, publishFor);
      assert GoodKey(o, files);
    }
  }

  /** A rotation of a good manifest gives a good manifest, once the new key's file is written. */
  lemma RotatedIsGood(m: Manifest, files: set<string>, algorithm: Algorithm, publishFor: int, now: int, kid: string)
    requires Good(m, files) && CanRotate(m, files, algorithm, kid)
    ensures Good(Rotated(m, algorithm, publishFor, now, kid), files + {FileOf(kid)})
  {
    var kept := Kept(m.keys, algorithm, now, publishFor);
    KeptStems(m.keys, algorithm, now, publishFor);
    KeptDistinct(m.keys, algorithm, now, publishFor);
    KeptAreGood(m.keys, files, algorithm, now, publishFor, kid);
    forall a | a in ALGORITHMS
      ensures ActiveCount(Rotated(m, algorithm, publishFor, now, kid).keys, a) == 1
    {
      RotatedActive(m, algorithm, publishFor, now, kid, a);
    }
    AppendIsGood(kept, NewKey(algorithm, kid), files);
  }

  lemma AppendIsGood(kept: seq<Key>, k: Key, files: set<string>)
    requires DistinctKids(kept) && forall o | o in kept :: GoodKey(o, files) && o.kid != k.kid
    requires GoodKey(k, files + {k.file})
    ensures DistinctKids(kept + [k])
    ensures forall i {:trigger (kept + [k])[i]} | 0 <= i < |kept| + 1 :: GoodKey((kept + [k])[i], files + {k.file})
  {
    forall i | 0 <= i < |kept|
      ensures GoodKey(kept[i], files + {k.file}) && kept[i].kid != k.kid
    {
      assert kept[i] in kept;
    }
  }

  function FirstManifest(rs: string, es: string, ed: string): Manifest {
    Manifest(1, [NewKey(RS256, rs), NewKey(ES256, es), NewKey(EdDSA, ed)])
  }

  lemma FirstIsGood(rs: string, es: string, ed: string, files: set<string>)
    requires rs != es && rs != ed && es != ed && {FileOf(rs), FileOf(es), FileOf(ed)} <= files
    ensures Good(FirstManifest(rs, es, ed), files)
  {
    var keys := FirstManifest(rs, es, ed).keys;
    assert keys[..2] == [keys[0], keys[1]] && keys[..2][..1] == [keys[0]] && keys[..1][..0] == [];
    forall a | a in ALGORITHMS
      ensures ActiveCount(keys, a) == 1
    {
      assert ActiveCount(keys[..2][..1], a) == if a == RS256 then 1 else 0;
      assert ActiveCount(keys[..2], a) == if a == EdDSA then 0 else 1;
    }
  }

  /** A rotation of a good manifest drops a listed key if and only if its publish_until has come; what it writes
      is the new key at the end, and before it the others, all of them active or still to be published. */
  lemma RotatedKeys(m: Manifest, files: set<string>, algorithm: Algorithm, publishFor: int, now: int, kid: string)
    requires Good(m, files) && CanRotate(m, files, algorithm, kid)
    ensures var m' := Rotated(m, algorithm, publishFor, now, kid);
            && m'.version == 1 && |m'.keys| > 0
            && m'.keys[|m'.keys| - 1] == Key(algorithm, kid, "signing-" + kid + ".pem", true, Absent)
            && (forall k | k in m.keys ::
                  (exists k' :: k' in m'.keys && k'.kid == k.kid) <==>
                  k.active || !k.publishUntil.At? || now < k.publishUntil.time)
            && (forall k' | k' in m'.keys ::
                  || k'.kid == kid || k'.active || (k'.publishUntil.At? && now < k'.publishUntil.time)
                  || (exists k :: k in m.keys && k.active && k.algorithm == algorithm && k.kid == k'.kid))
  {
    var at := KeptIsSubsequence(m.keys, algorithm, now, publishFor);
    var kept := Kept(m.keys, algorithm, now, publishFor);
    forall k | k in m.keys
      ensures (exists k' :: k' in kept + [NewKey(algorithm, kid)] && k'.kid == k.kid) <==>
              k.active || !k.publishUntil.At? || now < k.publishUntil.time
    {
      KeptIff(m, files, algorithm, publishFor, now, kid, at, k);
    }
    forall k' | k' in kept
      ensures k'.active || (k'.publishUntil.At? && now < k'.publishUntil.time)
              || (exists k :: k in m.keys && k.active && k.algorithm == algorithm && k.kid == k'.kid)
    {
      KeptIsAlive(m, files, algorithm, publishFor, now, at, k');
    }
  }

  lemma KeptIsAlive(m: Manifest, files: set<string>, algorithm: Algorithm, publishFor: int, now: int, at: seq<nat>,
                    k': Key)
    requires Good(m, files) && k' in Kept(m.keys, algorithm, now, publishFor)
    requires Increasing(at, |m.keys|) && Unexpired(m.keys, at, now)
    requires AllWrittenBack(Kept(m.keys, algorithm, now, publishFor), m.keys, at, algorithm, now, publishFor)
    ensures k'.active || (k'.publishUntil.At? && now < k'.publishUntil.time)
            || (exists k :: k in m.keys && k.active && k.algorithm == algorithm && k.kid == k'.kid)
  {
    var kept := Kept(m.keys, algorithm, now, publishFor);
    var i :| 0 <= i < |kept| && kept[i] == k';
    assert at[i] in at && GoodKey(m.keys[at[i]], files);
    assert m.keys[at[i]] in m.keys && WrittenBack(kept[i], m.keys[at[i]], algorithm, now, publishFor);
  }

  lemma KeptIff(m: Manifest, files: set<string>, algorithm: Algorithm, publishFor: int, now: int, kid: string,
                at: seq<nat>, k: Key)
    requires Good(m, files) && FileOf(kid) !in files && k in m.keys
    requires Increasing(at, |m.keys|) && Unexpired(m.keys, at, now)
    requires AllWrittenBack(Kept(m.keys, algorithm, now, publishFor), m.keys, at, algorithm, now, publishFor)
    ensures (exists k' :: k' in Kept(m.keys, algorithm, now, publishFor) + [NewKey(algorithm, kid)] && k'.kid == k.kid)
            <==> k.active || !k.publishUntil.At? || now < k.publishUntil.time
  {
    var kept := Kept(m.keys, algorithm, now, publishFor);
    var longer := kept + [NewKey(algorithm, kid)];
    var j :| 0 <= j < |m.keys| && m.keys[j] == k;
    assert GoodKey(m.keys[j], files);
    if j in at {
      var k' := AtIsKept(kept, m.keys, at, algorithm, now, publishFor, j);
      assert k' in longer;
    }
    if k' :| k' in longer && k'.kid == k.kid {
      assert k' in kept;
      KeptIsAt(kept, m.keys, at, algorithm, now, publishFor, k', j);
    }
  }

  lemma AtIsKept(kept: seq<Key>, keys: seq<Key>, at: seq<nat>, algorithm: Algorithm, now: int, publishFor: int, j: nat)
    returns (k': Key)
    requires AllWrittenBack(kept, keys, at, algorithm, now, publishFor) && j in at && j < |keys|
    ensures k' in kept && k'.kid == keys[j].kid
  {
    var i :| 0 <= i < |at| && at[i] == j;
    assert WrittenBack(kept[i], keys[j], algorithm, now, publishFor);
    k' := kept[i];
  }

  lemma KeptIsAt(kept: seq<Key>, keys: seq<Key>, at: seq<nat>, algorithm: Algorithm, now: int, publishFor: int, k': Key,
                 j: nat)
    requires AllWrittenBack(kept, keys, at, algorithm, now, publishFor) && DistinctKids(keys)
    requires k' in kept && j < |keys| && k'.kid == keys[j].kid
    ensures j in at
  {
    var i :| 0 <= i < |kept| && kept[i] == k';
    assert WrittenBack(kept[i], keys[at[i]], algorithm, now, publishFor);
    assert at[i] == j;
  }

  /** What a rotation of a good manifest needs: a known algorithm, an unused key id, and fewer than 32 keys.
      Expired keys count, because the limit is checked before they are pruned. */
  lemma CanRotateIff(m: Manifest, files: set<string>, algorithm: Algorithm, kid: string)
    requires Good(m, files)
    ensures CanRotate(m, files, algorithm, kid) <==>
            algorithm in {RS256, ES256, EdDSA} && |m.keys| < 32 && "signing-" + kid + ".pem" !in files
  {
    ActiveExists(m.keys, RS256);
    forall i | 0 <= i < |m.keys|
      ensures m.keys[i].active || !m.keys[i].publishUntil.Malformed?
    {
      assert GoodKey(m.keys[i], files);
    }
  }

  // ----- rotations over time

  /** One rotate-signing run; `crashes` means that it stops after writing the key file. */
  datatype Rotation = Rotation(algorithm: Algorithm, publishFor: int, idTokenTTL: int, now: int, kid: string,
                               crashes: bool)

  datatype Retirement = Retirement(at: int, publishFor: int, idTokenTTL: int)

  /** The manifest and key files, and a record of when each key was retired and with which durations. */
  datatype Ring = Ring(manifest: Manifest, files: set<string>, retired: map<string, Retirement>)

  function RetiringKids(keys: seq<Key>, algorithm: Algorithm): set<string> {
    set k | k in keys && k.active && k.algorithm == algorithm :: k.kid
  }

  predicate Succeeds(ring: Ring, r: Rotation) {
    DurationsAccepted(r.publishFor, r.idTokenTTL) && CanRotate(ring.manifest, ring.files, r.algorithm, r.kid)
  }

  function Rotate(ring: Ring, r: Rotation): Ring {
    if !Succeeds(ring, r) then ring
    else if r.crashes then ring.(files := ring.files + {FileOf(r.kid)})
    else
      Ring(Rotated(ring.manifest, r.algorithm, r.publishFor, r.now, r.kid),
           ring.files + {FileOf(r.kid)},
           ring.retired + map kid | kid in RetiringKids(ring.manifest.keys, r.algorithm) ::
                            Retirement(r.now, r.publishFor, r.idTokenTTL))
  }

  function After(start: Ring, rotations: seq<Rotation>): Ring {
    if rotations == [] then start
    else Rotate(After(start, rotations[..|rotations| - 1]), rotations[|rotations| - 1])
  }

  /** What initialize leaves. */
  ghost predicate Fresh(ring: Ring) {
    && ring.retired == map[]
    && exists rs, es, ed :: ring.manifest == FirstManifest(rs, es, ed) && Good(ring.manifest, ring.files)
  }

  function Until(r: Retirement): int {
    Format(r.at + r.publishFor).time
  }

  predicate Retiring(keys: seq<Key>, kid: string, until: int) {
    exists k :: k in keys && k.kid == kid && !k.active && k.publishUntil == At(until)
  }

  /** Up to time t, every retired key is still listed with its stamp unless the stamp has passed. */
  ghost predicate Tracked(ring: Ring, t: int) {
    && Good(ring.manifest, ring.files)
    && (forall kid | kid in ring.retired ::
          && DurationsAccepted(ring.retired[kid].publishFor, ring.retired[kid].idTokenTTL)
          && (Retiring(ring.manifest.keys, kid, Until(ring.retired[kid])) || Until(ring.retired[kid]) <= t))
    && (forall k | k in ring.manifest.keys :: k.active <==> k.kid !in ring.retired)
    && (forall kid | kid in ring.retired :: FileOf(kid) in ring.files)
  }

  lemma FreshTracked(ring: Ring, t: int)
    requires Fresh(ring)
    ensures Tracked(ring, t)
  {
  }

  lemma RotateTracked(ring: Ring, r: Rotation, t: int)
    requires Tracked(ring, t) && r.now <= t
    ensures Tracked(Rotate(ring, r), t)
  {
    if Succeeds(ring, r) {
      if r.crashes {
        MoreFilesGood(ring.manifest, ring.files, FileOf(r.kid));
      } else {
        RotatedIsGood(ring.manifest, ring.files, r.algorithm, r.publishFor, r.now, r.kid);
        forall kid | kid in Rotate(ring, r).retired
          ensures var ring' := Rotate(ring, r);
                  && DurationsAccepted(ring'.retired[kid].publishFor, ring'.retired[kid].idTokenTTL)
                  && (Retiring(ring'.manifest.keys, kid, Until(ring'.retired[kid])) || Until(ring'.retired[kid]) <= t)
                  && FileOf(kid) in ring'.files
        {
          StillTracked(ring, r, t, kid);
        }
        RotateActive(ring, r, t);
      }
    }
  }

  lemma MoreFilesGood(m: Manifest, files: set<string>, file: string)
    requires Good(m, files)
    ensures Good(m, files + {file})
  {
    forall i | 0 <= i < |m.keys|
      ensures GoodKey(m.keys[i], files + {file})
    {
      assert GoodKey(m.keys[i], files);
    }
  }

  lemma GoodMember(m: Manifest, files: set<string>, k: Key)
    requires Good(m, files) && k in m.keys
    ensures GoodKey(k, files)
  {
    var i :| 0 <= i < |m.keys| && m.keys[i] == k;
  }

  lemma StillTracked(ring: Ring, r: Rotation, t: int, kid: string)
    requires Tracked(ring, t) && r.now <= t && Succeeds(ring, r) && !r.crashes && kid in Rotate(ring, r).retired
    ensures var ring' := Rotate(ring, r);
            && DurationsAccepted(ring'.retired[kid].publishFor, ring'.retired[kid].idTokenTTL)
            && (Retiring(ring'.manifest.keys, kid, Until(ring'.retired[kid])) || Until(ring'.retired[kid]) <= t)
            && FileOf(kid) in ring'.files
  {
    var keys := ring.manifest.keys;
    if kid in RetiringKids(keys, r.algorithm) {
      var o :| o in keys && o.active && o.algorithm == r.algorithm && o.kid == kid;
      GoodMember(ring.manifest, ring.files, o);
      NowRetiring(keys, r, o);
    } else if Retiring(keys, kid, Until(ring.retired[kid])) {
      StillRetiring(keys, r, kid, Until(ring.retired[kid]));
    }
  }

  /** The key that a rotation retires is kept with its stamp. */
  lemma NowRetiring(keys: seq<Key>, r: Rotation, o: Key)
    requires o in keys && o.active && o.algorithm == r.algorithm
    ensures Retiring(Kept(keys, r.algorithm, r.now, r.publishFor) + [NewKey(r.algorithm, r.kid)], o.kid,
                     Format(r.now + r.publishFor).time)
  {
    UnexpiredIsKept(keys, r.algorithm, r.now, r.publishFor, o);
    var k := Retire(o, r.algorithm, r.now, r.publishFor);
    assert k in Kept(keys, r.algorithm, r.now, r.publishFor) + [NewKey(r.algorithm, r.kid)];
  }

  /** A key that was retired before is kept unless its stamp has passed. */
  lemma StillRetiring(keys: seq<Key>, r: Rotation, kid: string, until: int)
    requires Retiring(keys, kid, until)
    ensures Retiring(Kept(keys, r.algorithm, r.now, r.publishFor) + [NewKey(r.algorithm, r.kid)], kid, until) ||
            until <= r.now
  {
    var o :| o in keys && o.kid == kid && !o.active && o.publishUntil == At(until);
    if !Expired(o, r.now) {
      UnexpiredIsKept(keys, r.algorithm, r.now, r.publishFor, o);
      assert o in Kept(keys, r.algorithm, r.now, r.publishFor) + [NewKey(r.algorithm, r.kid)];
    }
  }

  lemma RotateActive(ring: Ring, r: Rotation, t: int)
    requires Tracked(ring, t) && Succeeds(ring, r) && !r.crashes
    ensures forall k | k in Rotate(ring, r).manifest.keys :: k.active <==> k.kid !in Rotate(ring, r).retired
  {
    var keys := ring.manifest.keys;
    KeptStems(keys, r.algorithm, r.now, r.publishFor);
    forall k | k in Rotate(ring, r).manifest.keys
      ensures k.active <==> k.kid !in Rotate(ring, r).retired
    {
      if k == NewKey(r.algorithm, r.kid) {
        forall o | o in keys
          ensures o.kid != r.kid
        {
          GoodMember(ring.manifest, ring.files, o);
        }
      } else {
        var o :| o in keys && !Expired(o, r.now) && k == Retire(o, r.algorithm, r.now, r.publishFor);
        if k.kid in RetiringKids(keys, r.algorithm) {
          var q :| q in keys && q.active && q.algorithm == r.algorithm && q.kid == k.kid;
          SameKid(keys, o, q);
        }
      }
    }
  }

  lemma SameKid(keys: seq<Key>, a: Key, b: Key)
    requires DistinctKids(keys) && a in keys && b in keys && a.kid == b.kid
    ensures a == b
  {
  }

  lemma {:induction false} AfterTracked(start: Ring, rotations: seq<Rotation>, t: int)
    requires Fresh(start) && forall i | 0 <= i < |rotations| :: rotations[i].now <= t
    ensures Tracked(After(start, rotations), t)
  {
    if rotations == [] {
      FreshTracked(start, t);
    } else {
      var n := |rotations| - 1;
      AfterTracked(start, rotations[..n], t);
      RotateTracked(After(start, rotations[..n]), rotations[n], t);
    }
  }

  /** Every manifest that rotations lead to, crashed ones included, is good. */
  lemma {:induction false} ReachableGood(start: Ring, rotations: seq<Rotation>)
    requires Fresh(start)
    ensures Good(After(start, rotations).manifest, After(start, rotations).files)
  {
    if rotations != [] {
      var n := |rotations| - 1;
      ReachableGood(start, rotations[..n]);
      var ring, r := After(start, rotations[..n]), rotations[n];
      if Succeeds(ring, r) {
        MoreFilesGood(ring.manifest, ring.files, FileOf(r.kid));
        RotatedIsGood(ring.manifest, ring.files, r.algorithm, r.publishFor, r.now, r.kid);
      }
    }
  }

  /** When a rotation of a reachable directory takes place, in nanoseconds: an id-token lifetime of 1 minute to 24
      hours, that and 10 minutes to 90 days of publishing, a known algorithm, an unused key id and room for a key. */
  lemma CompletesIff(start: Ring, rotations: seq<Rotation>, r: Rotation)
    requires Fresh(start)
    ensures var ring := After(start, rotations);
            (Rotate(ring, r).manifest != ring.manifest <==>
               && 60000000000 <= r.idTokenTTL <= 86400000000000
               && r.idTokenTTL + 600000000000 <= r.publishFor <= 7776000000000000
               && r.algorithm in {RS256, ES256, EdDSA} && |ring.manifest.keys| < 32
               && "signing-" + r.kid + ".pem" !in ring.files && !r.crashes)
  {
    var ring := After(start, rotations);
    ReachableGood(start, rotations);
    CanRotateIff(ring.manifest, ring.files, r.algorithm, r.kid);
    ChangesIff(ring, r);
  }

  lemma ChangesIff(ring: Ring, r: Rotation)
    requires Good(ring.manifest, ring.files)
    ensures Rotate(ring, r).manifest != ring.manifest <==> Succeeds(ring, r) && !r.crashes
  {
    if Succeeds(ring, r) && !r.crashes {
      NewKeyIsNew(ring, r);
    }
  }

  lemma NewKeyIsNew(ring: Ring, r: Rotation)
    requires Good(ring.manifest, ring.files) && Succeeds(ring, r) && !r.crashes
    ensures Rotate(ring, r).manifest != ring.manifest
  {
    var keys' := Rotate(ring, r).manifest.keys;
    var last := keys'[|keys'| - 1];
    assert last == NewKey(r.algorithm, r.kid) && last in keys';
    if last in ring.manifest.keys {
      GoodMember(ring.manifest, ring.files, last);
    }
  }

  // ----- the 32-key limit

  /** A full manifest can never be rotated again, however long one waits and however many keys expire. */
  lemma {:induction false} FullManifestIsStuck(ring: Ring, rotations: seq<Rotation>)
    requires |ring.manifest.keys| == 32
    ensures After(ring, rotations) == ring
  {
    if rotations != [] {
      FullManifestIsStuck(ring, rotations[..|rotations| - 1]);
    }
  }

  function ExpiredCount(keys: seq<Key>, now: int): nat {
    if keys == [] then 0
    else ExpiredCount(keys[..|keys| - 1], now) + if Expired(keys[|keys| - 1], now) then 1 else 0
  }

  lemma {:induction false} KeptCount(keys: seq<Key>, algorithm: Algorithm, now: int, publishFor: int)
    ensures |Kept(keys, algorithm, now, publishFor)| + ExpiredCount(keys, now) == |keys|
  {
    if keys != [] {
      KeptCount(keys[..|keys| - 1], algorithm, now, publishFor);
    }
  }

  /** A rotation that runs to its end. */
  predicate Completes(ring: Ring, r: Rotation) {
    Succeeds(ring, r) && !r.crashes
  }

  /** How many rotations of a run complete. */
  function Completed(start: Ring, rotations: seq<Rotation>): nat {
    if rotations == [] then 0
    else
      var n := |rotations| - 1;
      Completed(start, rotations[..n]) + if Completes(After(start, rotations[..n]), rotations[n]) then 1 else 0
  }

  /** How many expired keys they meet. */
  function Pruned(start: Ring, rotations: seq<Rotation>): nat {
    if rotations == [] then 0
    else
      var n := |rotations| - 1;
      var ring := After(start, rotations[..n]);
      Pruned(start, rotations[..n]) +
      if Completes(ring, rotations[n]) then ExpiredCount(ring.manifest.keys, rotations[n].now) else 0
  }

  /** The exact count, for every run: each rotation that completes adds a key, and only the expired keys that
      it meets are taken off.  Nothing else ever makes room in a manifest. */
  lemma {:induction false} KeyCount(start: Ring, rotations: seq<Rotation>)
    ensures |After(start, rotations).manifest.keys| + Pruned(start, rotations)
            == |start.manifest.keys| + Completed(start, rotations)
  {
    if rotations != [] {
      var n := |rotations| - 1;
      var ring, r := After(start, rotations[..n]), rotations[n];
      KeyCount(start, rotations[..n]);
      KeptCount(ring.manifest.keys, r.algorithm, r.now, r.publishFor);
    }
  }

  /** No retired key has expired by time t. */
  predicate NoneExpiredBy(keys: seq<Key>, t: int) {
    forall i | 0 <= i < |keys| :: !Expired(keys[i], t)
  }

  /** A rotation that meets no expired key only adds one. */
  lemma {:induction false} KeptAll(keys: seq<Key>, algorithm: Algorithm, now: int, publishFor: int, t: int)
    requires NoneExpiredBy(keys, t) && now <= t && t < Format(now + publishFor).time
    ensures |Kept(keys, algorithm, now, publishFor)| == |keys|
    ensures NoneExpiredBy(Kept(keys, algorithm, now, publishFor), t)
  {
    if keys != [] {
      var init, last := keys[..|keys| - 1], keys[|keys| - 1];
      KeptAll(init, algorithm, now, publishFor, t);
      assert !Expired(last, t);
      assert Kept(keys, algorithm, now, publishFor) ==
               Kept(init, algorithm, now, publishFor) + [Retire(last, algorithm, now, publishFor)];
    }
  }

  lemma {:induction false} LengthBound(files: set<string>) returns (n: nat)
    ensures forall f | f in files :: |f| <= n
  {
    if files == {} {
      n := 0;
    } else {
      var f :| f in files;
      var m := LengthBound(files - {f});
      n := if |f| > m then |f| else m;
      assert forall g | g in files :: g == f || g in files - {f};
    }
  }

  lemma UnusedKid(files: set<string>) returns (kid: string)
    ensures FileOf(kid) !in files
  {
    var n := LengthBound(files);
    kid := seq(n, i => 'k');
    assert |FileOf(kid)| > n;
  }

  /** A good manifest with room for a key can be rotated at a time at which none of its keys has expired. */
  lemma OneMore(ring: Ring, algorithm: Algorithm, publishFor: int, idTokenTTL: int, now: int, t: int)
    returns (r: Rotation)
    requires Good(ring.manifest, ring.files) && |ring.manifest.keys| < MAX_KEYS
    requires algorithm in ALGORITHMS && DurationsAccepted(publishFor, idTokenTTL)
    requires NoneExpiredBy(ring.manifest.keys, t) && now <= t < Format(now + publishFor).time
    ensures r.now == now && !r.crashes
    ensures |Rotate(ring, r).manifest.keys| == |ring.manifest.keys| + 1 &&
            NoneExpiredBy(Rotate(ring, r).manifest.keys, t)
  {
    var kid := UnusedKid(ring.files);
    CanRotateIff(ring.manifest, ring.files, algorithm, kid);
    KeptAll(ring.manifest.keys, algorithm, now, publishFor, t);
    r := Rotation(algorithm, publishFor, idTokenTTL, now, kid, false);
  }

  lemma StampIsLater(now: int, publishFor: int, from: int)
    requires from <= now
    ensures from + publishFor - SECOND < Format(now + publishFor).time
  {
  }

  /** For any times within one publishing period there are rotations at these times that complete and meet no
      expired key, so that 29 of them bring a new directory to the limit. */
  lemma {:induction false} RotationsFillTheManifest(start: Ring, times: seq<int>, algorithm: Algorithm, publishFor: int,
                                                     idTokenTTL: int, from: int)
    returns (rotations: seq<Rotation>)
    requires Fresh(start) && algorithm in ALGORITHMS && DurationsAccepted(publishFor, idTokenTTL) &&
             |times| <= MAX_KEYS - 3
    requires forall i | 0 <= i < |times| :: from <= times[i] <= from + publishFor - SECOND
    ensures |rotations| == |times|
    ensures forall i | 0 <= i < |times| :: rotations[i].now == times[i] && !rotations[i].crashes
    ensures var m := After(start, rotations).manifest;
            |m.keys| == 3 + |times| && NoneExpiredBy(m.keys, from + publishFor - SECOND)
  {
    if times == [] {
      rotations := [];
    } else {
      var n := |times| - 1;
      var before := RotationsFillTheManifest(start, times[..n], algorithm, publishFor, idTokenTTL, from);
      ReachableGood(start, before);
      StampIsLater(times[n], publishFor, from);
      var r := OneMore(After(start, before), algorithm, publishFor, idTokenTTL, times[n], from + publishFor - SECOND);
      rotations := before + [r];
      assert rotations[..n] == before;
    }
  }

  /** So every new directory is 29 rotations away from one that nothing can rotate any more. */
  lemma DirectoryCanGetStuck(start: Ring, algorithm: Algorithm, publishFor: int, idTokenTTL: int, now: int)
    returns (rotations: seq<Rotation>)
    requires Fresh(start) && algorithm in ALGORITHMS && DurationsAccepted(publishFor, idTokenTTL)
    ensures |rotations| == 29
    ensures forall more: seq<Rotation> :: After(After(start, rotations), more) == After(start, rotations)
  {
    rotations := RotationsFillTheManifest(start, seq(MAX_KEYS - 3, i => now), algorithm, publishFor, idTokenTTL, now);
    forall more: seq<Rotation>
      ensures After(After(start, rotations), more) == After(start, rotations)
    {
      FullManifestIsStuck(After(start, rotations), more);
    }
  }

  /** The kids that the JWKS endpoint publishes at time t. */
  function Published(m: Manifest, t: int): set<string> {
    set k | k in m.keys && (k.active || (k.publishUntil.At? && t < k.publishUntil.time)) :: k.kid
  }

  /** A token that a key signed, at the latest the margin less one second after its retirement, can be
      verified against the published keys for as long as it lives. */
  lemma {:induction false} TokenVerifiableWhileAlive(start: Ring, rotations: seq<Rotation>, kid: string, signedAt: int,
                                                     lifetime: int, t: int)
    requires Fresh(start) && forall i | 0 <= i < |rotations| :: rotations[i].now <= t
    requires kid in After(start, rotations).retired
    requires var r := After(start, rotations).retired[kid];
             signedAt <= r.at + RETIREMENT_MARGIN - SECOND && lifetime <= r.idTokenTTL
    requires t <= signedAt + lifetime
    ensures kid in Published(After(start, rotations).manifest, t)
  {
    AfterTracked(start, rotations, t);
  }

  /** Whatever the time, every algorithm has a key to sign with, and that key is published. */
  lemma ActiveIsPublished(start: Ring, rotations: seq<Rotation>, a: Algorithm, t: int) returns (k: Key)
    requires Fresh(start) && a in {RS256, ES256, EdDSA}
    ensures var m := After(start, rotations).manifest;
            k in m.keys && k.active && k.algorithm == a && k.kid in Published(m, t)
  {
    var m := After(start, rotations).manifest;
    ReachableGood(start, rotations);
    assert ActiveCount(m.keys, a) == 1;
    ActiveExists(m.keys, a);
    k :| k in m.keys && k.active && k.algorithm == a;
  }

  /** A token signed x after its key was retired is still alive at time t, when these rotations have happened. */
  ghost predicate Alive(start: Ring, rotations: seq<Rotation>, kid: string, x: int, lifetime: int, t: int) {
    var ring := After(start, rotations);
    && Fresh(start) && (forall i | 0 <= i < |rotations| :: rotations[i].now <= t) && kid in ring.retired
    && lifetime <= ring.retired[kid].idTokenTTL && t <= ring.retired[kid].at + x + lifetime
  }

  ghost predicate Verifiable(start: Ring, rotations: seq<Rotation>, kid: string, x: int, lifetime: int, t: int) {
    Alive(start, rotations, kid, x, lifetime, t) ==> kid in Published(After(start, rotations).manifest, t)
  }

  /** The margin less one second is exact: up to it every live token has its key published, and with any
      longer delay there is a run after which a live token has not. */
  lemma VerifiableIffWithinMargin(x: int)
    ensures (forall start: Ring, rotations: seq<Rotation>, kid: string, lifetime: int, t: int ::
               Verifiable(start, rotations, kid, x, lifetime, t)) <==>
            x <= RETIREMENT_MARGIN - SECOND
  {
    if x <= RETIREMENT_MARGIN - SECOND {
      forall start: Ring, rotations: seq<Rotation>, kid: string, lifetime: int, t: int
        ensures Verifiable(start, rotations, kid, x, lifetime, t)
      {
        if Alive(start, rotations, kid, x, lifetime, t) {
          TokenVerifiableWhileAlive(start, rotations, kid, After(start, rotations).retired[kid].at + x, lifetime, t);
        }
      }
    } else {
      LateTokenLosesItsKey(x);
      assert !Verifiable(LateStart(), [LateRotation()], "a", x, MINUTE, LateRotation().now + x + MINUTE);
    }
  }

  function LateStart(): Ring {
    Ring(FirstManifest("a", "b", "c"), {FileOf("a"), FileOf("b"), FileOf("c")}, map[])
  }

  /** The shortest accepted durations, at the last nanosecond of a second. */
  function LateRotation(): Rotation {
    Rotation(RS256, MINUTE + RETIREMENT_MARGIN, MINUTE, SECOND - 1, "d", false)
  }

  lemma LateTokenLosesItsKey(x: int)
    requires x > RETIREMENT_MARGIN - SECOND
    ensures var ring, r := After(LateStart(), [LateRotation()]), LateRotation();
            && Fresh(LateStart())
            && "a" in ring.retired && ring.retired["a"] == Retirement(r.now, r.publishFor, MINUTE)
            && "a" !in Published(ring.manifest, r.now + x + MINUTE)
  {
    var start, r := LateStart(), LateRotation();
    LateRotationSucceeds();
    assert [r][..0] == [] && After(start, [r]) == Rotate(start, r);
    assert start.manifest.keys[0] == NewKey(RS256, "a");
    assert "a" in RetiringKids(start.manifest.keys, RS256);
    forall k | k in Rotate(start, r).manifest.keys && k.kid == "a"
      ensures !k.active && k.publishUntil == At(MINUTE + RETIREMENT_MARGIN)
    {
      LateKey(k);
    }
  }

  lemma LateRotationSucceeds()
    ensures Fresh(LateStart()) && Succeeds(LateStart(), LateRotation())
  {
    var start := LateStart();
    FirstIsGood("a", "b", "c", start.files);
    FileOfDistinct(start.files);
    CanRotateIff(start.manifest, start.files, RS256, "d");
  }

  lemma LateKey(k: Key)
    requires k in Rotated(LateStart().manifest, RS256, MINUTE + RETIREMENT_MARGIN, SECOND - 1, "d").keys && k.kid == "a"
    ensures !k.active && k.publishUntil == At(MINUTE + RETIREMENT_MARGIN)
  {
    var keys := LateStart().manifest.keys;
    KeptStems(keys, RS256, SECOND - 1, MINUTE + RETIREMENT_MARGIN);
    assert k in Kept(keys, RS256, SECOND - 1, MINUTE + RETIREMENT_MARGIN);
    assert StemsFrom(k, keys, RS256, SECOND - 1, MINUTE + RETIREMENT_MARGIN);
  }

  lemma FileOfDistinct(files: set<string>)
    requires files == {FileOf("a"), FileOf("b"), FileOf("c")}
    ensures FileOf("d") !in files
  {
    assert FileOf("a")[8] == 'a' && FileOf("b")[8] == 'b' && FileOf("c")[8] == 'c' && FileOf("d")[8] == 'd';
  }

  /** The rotation that drops a key comes after every token of that key has expired. */
  lemma {:induction false} DroppedOnlyAfterTokensExpired(start: Ring, rotations: seq<Rotation>, r: Rotation, k: Key,
                                                         signedAt: int, lifetime: int)
    requires Fresh(start) && forall i | 0 <= i < |rotations| :: rotations[i].now <= r.now
    requires var ring := After(start, rotations); k in ring.manifest.keys && k.kid in ring.retired
    requires forall q | q in Rotate(After(start, rotations), r).manifest.keys :: q.kid != k.kid
    requires var retirement := After(start, rotations).retired[k.kid];
             signedAt <= retirement.at + RETIREMENT_MARGIN - SECOND && lifetime <= retirement.idTokenTTL
    ensures signedAt + lifetime < r.now
  {
    var ring := After(start, rotations);
    AfterTracked(start, rotations, r.now);
    RotateTracked(ring, r, r.now);
    assert k.kid !in RetiringKids(ring.manifest.keys, r.algorithm);
    assert !Retiring(Rotate(ring, r).manifest.keys, k.kid, Until(ring.retired[k.kid]));
  }

  /** A token signed x after the retirement expires before the stamped publish_until. */
  predicate ExpiresInTime(x: int, at: int, publishFor: int, idTokenTTL: int) {
    at + x + idTokenTTL < Format(at + publishFor).time
  }

  /** The margin less one second is exactly what the durations buy: for a longer delay some accepted
      rotation lets the stamp, cut to whole seconds, pass before a token expires. */
  lemma MarginLessOneSecondIsExact(x: int)
    ensures (forall at, publishFor, idTokenTTL | DurationsAccepted(publishFor, idTokenTTL) ::
               ExpiresInTime(x, at, publishFor, idTokenTTL)) <==> x <= RETIREMENT_MARGIN - SECOND
  {
    if x > RETIREMENT_MARGIN - SECOND {
      assert DurationsAccepted(MINUTE + RETIREMENT_MARGIN, MINUTE);
      assert !ExpiresInTime(x, SECOND - 1, MINUTE + RETIREMENT_MARGIN, MINUTE);
    }
  }

  // ----- code keys

  const MAX_CODE_KEYS: int := 16

  datatype CodeManifest = CodeManifest(version: int, active: string, keys: map<string, string>)

  predicate CanRotateCode(m: CodeManifest) {
    m.version == 1 && m.active != "" && 0 < |m.keys| < MAX_CODE_KEYS
  }

  function RotatedCode(m: CodeManifest, kid: string, secret: string): CodeManifest {
    m.(active := kid, keys := m.keys[kid := secret])
  }

  predicate GoodCode(m: CodeManifest) {
    m.version == 1 && m.active != "" && m.active in m.keys && |m.keys| <= MAX_CODE_KEYS
  }

  lemma RotatedCodeIsGood(m: CodeManifest, kid: string, secret: string)
    requires GoodCode(m) && CanRotateCode(m) && kid != ""
    ensures GoodCode(RotatedCode(m, kid, secret))
  {
    assert RotatedCode(m, kid, secret).keys.Keys == m.keys.Keys + {kid};
  }

  /** No code key is lost exactly when the fresh id is not already taken by another secret. */
  lemma CodeKeysKeptIff(m: CodeManifest, kid: string, secret: string)
    ensures (forall old' | old' in m.keys :: old' in RotatedCode(m, kid, secret).keys
                                             && RotatedCode(m, kid, secret).keys[old'] == m.keys[old'])
            <==> !Overwrites(m, CodeRotation(kid, secret))
  {
    if kid in m.keys && m.keys[kid] != secret {
      assert RotatedCode(m, kid, secret).keys[kid] != m.keys[kid];
    }
  }

  // ----- runs of code rotations

  /** One rotate-code run with the id and the secret that it draws. */
  datatype CodeRotation = CodeRotation(kid: string, secret: string)

  predicate Overwrites(m: CodeManifest, r: CodeRotation) {
    r.kid in m.keys && m.keys[r.kid] != r.secret
  }

  function RotateCode(m: CodeManifest, r: CodeRotation): CodeManifest {
    if CanRotateCode(m) then RotatedCode(m, r.kid, r.secret) else m
  }

  function AfterCodes(m: CodeManifest, rotations: seq<CodeRotation>): CodeManifest {
    if rotations == [] then m
    else RotateCode(AfterCodes(m, rotations[..|rotations| - 1]), rotations[|rotations| - 1])
  }

  /** The active id is a member and the limit is kept, whatever is drawn. */
  lemma {:induction false} CodeRunIsGood(m: CodeManifest, rotations: seq<CodeRotation>)
    requires GoodCode(m) && forall i | 0 <= i < |rotations| :: rotations[i].kid != ""
    ensures GoodCode(AfterCodes(m, rotations))
  {
    if rotations != [] {
      var n := |rotations| - 1;
      CodeRunIsGood(m, rotations[..n]);
      if CanRotateCode(AfterCodes(m, rotations[..n])) {
        RotatedCodeIsGood(AfterCodes(m, rotations[..n]), rotations[n].kid, rotations[n].secret);
      }
    }
  }

  /** Code keys are never pruned, so a full manifest stays as it is for ever. */
  lemma {:induction false} FullCodeManifestIsStuck(m: CodeManifest, rotations: seq<CodeRotation>)
    requires |m.keys| == 16
    ensures AfterCodes(m, rotations) == m
  {
    if rotations != [] {
      FullCodeManifestIsStuck(m, rotations[..|rotations| - 1]);
    }
  }

  /** With ids that are not in use when they are drawn, every rotation adds a key until there are 16. */
  lemma {:induction false} CodeKeyCount(m: CodeManifest, rotations: seq<CodeRotation>)
    requires GoodCode(m)
    requires forall i | 0 <= i < |rotations| ::
               rotations[i].kid != "" && rotations[i].kid !in AfterCodes(m, rotations[..i]).keys
    ensures var n := |m.keys| + |rotations|;
            |AfterCodes(m, rotations).keys| == if n < 16 then n else 16
  {
    if rotations != [] {
      var n := |rotations| - 1;
      var init, r := rotations[..n], rotations[n];
      forall i | 0 <= i < n
        ensures init[i].kid != "" && init[i].kid !in AfterCodes(m, init[..i]).keys
      {
        assert rotations[..i] == init[..i];
      }
      CodeKeyCount(m, init);
      CodeRunIsGood(m, init);
      var before := AfterCodes(m, init);
      assert before.active in before.keys &&
             RotatedCode(before, r.kid, r.secret).keys.Keys == before.keys.Keys + {r.kid};
    }
  }

  /** Whoever reads a manifest finds the id and secret that were drawn last as the active ones: rotation i was
      carried out, and after it the manifest was full. */
  lemma {:induction false} LastDrawnIsActive(m: CodeManifest, rotations: seq<CodeRotation>, i: nat)
    requires GoodCode(m) && i < |rotations| && forall j | 0 <= j < |rotations| :: rotations[j].kid != ""
    requires |AfterCodes(m, rotations[..i]).keys| < 16
    requires i + 1 < |rotations| ==> |AfterCodes(m, rotations[..i + 1]).keys| == 16
    ensures var m' := AfterCodes(m, rotations);
            && m'.active == rotations[i].kid && m'.active in m'.keys && m'.keys[m'.active] == rotations[i].secret
    ensures forall kid | kid in AfterCodes(m, rotations[..i]).keys && kid != rotations[i].kid ::
              && kid in AfterCodes(m, rotations).keys
              && AfterCodes(m, rotations).keys[kid] == AfterCodes(m, rotations[..i]).keys[kid]
  {
    var before := AfterCodes(m, rotations[..i]);
    CodeRunIsGood(m, rotations[..i]);
    assert rotations[..i + 1][..i] == rotations[..i];
    assert AfterCodes(m, rotations[..i + 1]) == RotatedCode(before, rotations[i].kid, rotations[i].secret);
    StaysFull(m, rotations, i + 1);
  }

  lemma {:induction false} StaysFull(m: CodeManifest, rotations: seq<CodeRotation>, n: nat)
    requires n <= |rotations| && (n < |rotations| ==> |AfterCodes(m, rotations[..n]).keys| == 16)
    ensures AfterCodes(m, rotations) == AfterCodes(m, rotations[..n])
    decreases |rotations|
  {
    if n < |rotations| {
      var init := rotations[..|rotations| - 1];
      assert init[..n] == rotations[..n];
      if n == |init| {
        assert init[..n] == init;
      }
      StaysFull(m, init, n);
    } else {
      assert rotations[..n] == rotations;
    }
  }

  predicate Holds(m: CodeManifest, c: CodeRotation) {
    c.kid in m.keys && m.keys[c.kid] == c.secret
  }

  /** Every id and secret that the manifest has ever held. */
  function Installed(m: CodeManifest, rotations: seq<CodeRotation>): set<CodeRotation> {
    if rotations == [] then set kid | kid in m.keys :: CodeRotation(kid, m.keys[kid])
    else
      var n := |rotations| - 1;
      Installed(m, rotations[..n]) + if CanRotateCode(AfterCodes(m, rotations[..n])) then {rotations[n]} else {}
  }

  /** What is held was installed, and an id that was installed is still in use. */
  ghost predicate Accounts(installed: set<CodeRotation>, m: CodeManifest) {
    && (forall kid | kid in m.keys :: CodeRotation(kid, m.keys[kid]) in installed)
    && (forall c | c in installed :: c.kid in m.keys)
  }

  lemma {:induction false} InstalledAccounts(m: CodeManifest, rotations: seq<CodeRotation>)
    ensures Accounts(Installed(m, rotations), AfterCodes(m, rotations))
  {
    if rotations != [] {
      var n := |rotations| - 1;
      InstalledAccounts(m, rotations[..n]);
    }
  }

  /** Rotation i was carried out and overwrote a secret. */
  predicate OverwritesAt(m: CodeManifest, rotations: seq<CodeRotation>, i: nat)
    requires i < |rotations|
  {
    CanRotateCode(AfterCodes(m, rotations[..i])) && Overwrites(AfterCodes(m, rotations[..i]), rotations[i])
  }

  ghost predicate HoldsAll(m: CodeManifest, installed: set<CodeRotation>) {
    forall c | c in installed :: Holds(m, c)
  }

  /** Over any run, everything ever installed is still there if and only if no rotation drew an id that
      another secret had. */
  lemma {:induction false} NoSecretLostIff(m: CodeManifest, rotations: seq<CodeRotation>)
    ensures HoldsAll(AfterCodes(m, rotations), Installed(m, rotations)) <==>
            forall i | 0 <= i < |rotations| :: !OverwritesAt(m, rotations, i)
  {
    if rotations != [] {
      var n := |rotations| - 1;
      var init := rotations[..n];
      NoSecretLostIff(m, init);
      OverwritesBefore(m, rotations);
      InstalledAccounts(m, init);
      if CanRotateCode(AfterCodes(m, init)) {
        OneMoreSecret(AfterCodes(m, init), rotations[n], Installed(m, init));
      }
    }
  }

  lemma OverwritesBefore(m: CodeManifest, rotations: seq<CodeRotation>)
    requires rotations != []
    ensures var n := |rotations| - 1;
            (forall i | 0 <= i < |rotations| :: !OverwritesAt(m, rotations, i)) <==>
            (forall i | 0 <= i < n :: !OverwritesAt(m, rotations[..n], i)) && !OverwritesAt(m, rotations, n)
  {
    var n := |rotations| - 1;
    forall i | 0 <= i < n
      ensures OverwritesAt(m, rotations, i) <==> OverwritesAt(m, rotations[..n], i)
    {
      assert rotations[..i] == rotations[..n][..i];
    }
  }

  lemma OneMoreSecret(m: CodeManifest, r: CodeRotation, installed: set<CodeRotation>)
    requires Accounts(installed, m)
    ensures HoldsAll(RotatedCode(m, r.kid, r.secret), installed + {r}) <==> HoldsAll(m, installed) && !Overwrites(m, r)
  {
    var after := RotatedCode(m, r.kid, r.secret);
    if HoldsAll(after, installed + {r}) {
      assert r.kid in m.keys ==> CodeRotation(r.kid, m.keys[r.kid]) in installed;
      forall c | c in installed
        ensures Holds(m, c)
      {
        assert Holds(after, c);
      }
    }
  }
}
