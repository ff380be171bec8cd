/**
 The key directory and the program that writes it: key files are created exclusively and before the
 manifest that names them, and a manifest is validated in a temporary file and then renamed.

 `Disk` is what a crash leaves behind; the directory's history lists the disks it went through, one
 per durable write, and every one of them has to be good.
 */
module KeyDirectory {
  import opened Wrappers
  import opened KeyRotation

  datatype Disk = Disk(files: set<string>, signing: Option<Manifest>, code: Option<CodeManifest>, pepper: bool)

  /** What a reader that comes along at this moment can rely on. */
  ghost predicate DiskGood(d: Disk) {
    && (d.signing.Some? ==> Good(d.signing.value, d.files))
    && (d.code.Some? ==> GoodCode(d.code.value))
  }

  datatype Failure =
    | Refused | NotFound | BadManifest | BadTimestamp(kid: string) | SeveralActive | NoneActive | WriteFailed

  /** The first i keys have been gone through: these are kept, and whether the active one was among them. */
  ghost predicate RetiredUpTo(keys: seq<Key>, algorithm: Algorithm, now: int, publishFor: int,
                              i: nat, kept: seq<Key>, foundActive: bool)
  {
    && i <= |keys| && WellStamped(keys[..i])
    && kept == Kept(keys[..i], algorithm, now, publishFor)
    && ActiveCount(keys[..i], algorithm) == if foundActive then 1 else 0
  }

  lemma RetiredNext(keys: seq<Key>, algorithm: Algorithm, now: int, publishFor: int, i: nat, kept: seq<Key>,
                    foundActive: bool)
    requires i < |keys| && RetiredUpTo(keys, algorithm, now, publishFor, i, kept, foundActive)
    requires keys[i].active || !keys[i].publishUntil.Malformed?
    requires !(foundActive && keys[i].active && keys[i].algorithm == algorithm)
    ensures RetiredUpTo(keys, algorithm, now, publishFor, i + 1,
                        if Expired(keys[i], now) then kept else kept + [Retire(keys[i], algorithm, now, publishFor)],
                        foundActive || (keys[i].active && keys[i].algorithm == algorithm))
  {
    assert keys[..i + 1] == keys[..i] + [keys[i]];
    KeptPush(keys[..i], keys[i], algorithm, now, publishFor);
    ActiveCountPush(keys[..i], keys[i], algorithm);
  }

  lemma SecondActive(keys: seq<Key>, algorithm: Algorithm, now: int, publishFor: int, i: nat, kept: seq<Key>)
    requires i < |keys| && RetiredUpTo(keys, algorithm, now, publishFor, i, kept, true)
    requires keys[i].active && keys[i].algorithm == algorithm
    ensures ActiveCount(keys, algorithm) > 1
  {
    assert keys[..i + 1] == keys[..i] + [keys[i]];
    ActiveCountPush(keys[..i], keys[i], algorithm);
    ActiveCountMonotone(keys, i + 1, algorithm);
  }

  lemma AllRetired(keys: seq<Key>, algorithm: Algorithm, now: int, publishFor: int, kept: seq<Key>, foundActive: bool)
    requires RetiredUpTo(keys, algorithm, now, publishFor, |keys|, kept, foundActive)
    ensures WellStamped(keys) && kept == Kept(keys, algorithm, now, publishFor)
    ensures ActiveCount(keys, algorithm) == if foundActive then 1 else 0
  {
    assert keys[..|keys|] == keys;
  }

  /** The loop of rotateSigning, on any manifest whatever. */
  method RetireKeys(keys: seq<Key>, algorithm: Algorithm, now: int, publishFor: int)
    returns (r: Result<seq<Key>, Failure>)
    ensures r.Ok? <==> WellStamped(keys) && ActiveCount(keys, algorithm) == 1
    ensures r.Ok? ==> r.value == Kept(keys, algorithm, now, publishFor)
  {
    var foundActive := false;
    var kept: seq<Key> := [];
    var i := 0;
    while i < |keys|
      invariant RetiredUpTo(keys, algorithm, now, publishFor, i, kept, foundActive)
    {
      var key := keys[i];
      ghost var found := foundActive;
      if !key.active && key.publishUntil != Absent {
        if key.publishUntil == Malformed {
          return Err(BadTimestamp(key.kid));
        }
        if key.publishUntil.time <= now {
          RetiredNext(keys, algorithm, now, publishFor, i, kept, found);
          i := i + 1;
          continue;
        }
      }
      if key.algorithm == algorithm && key.active {
        if foundActive {
          SecondActive(keys, algorithm, now, publishFor, i, kept);
          return Err(SeveralActive);
        }
        foundActive := true;
        key := key.(active := false, publishUntil := Format(now + publishFor));
      }
      RetiredNext(keys, algorithm, now, publishFor, i, kept, found);
      kept := kept + [key];
      i := i + 1;
    }
    AllRetired(keys, algorithm, now, publishFor, kept, foundActive);
    if !foundActive {
      return Err(NoneActive);
    }
    return Ok(kept);
  }

  lemma {:induction false} ActiveCountMonotone(keys: seq<Key>, n: nat, algorithm: Algorithm)
    requires n <= |keys|
    ensures ActiveCount(keys[..n], algorithm) <= ActiveCount(keys, algorithm)
    decreases |keys|
  {
    if n < |keys| {
      var init := keys[..|keys| - 1];
      assert init[..n] == keys[..n];
      ActiveCountMonotone(init, n, algorithm);
    } else {
      assert keys[..n] == keys;
    }
  }

  /** The ids are distinct and no key file has any of their names. */
  predicate UnusedKids(kids: seq<string>, files: set<string>) {
    && (forall i | 0 <= i < |kids| :: FileOf(kids[i]) !in files)
    && forall i, j | 0 <= i < j < |kids| :: kids[i] != kids[j]
  }

  lemma NextUnused(kids: seq<string>, n: nat, files: set<string>)
    requires n < |kids| && UnusedKids(kids[..n], files)
    ensures UnusedKids(kids[..n + 1], files) <==> FileOf(kids[n]) !in files + set j | 0 <= j < n :: FileOf(kids[j])
    ensures UnusedKids(kids, files) ==> UnusedKids(kids[..n + 1], files)
  {
    forall j | 0 <= j < n && FileOf(kids[j]) == FileOf(kids[n])
      ensures kids[j] == kids[n]
    {
      FileOfInjective(kids[j], kids[n]);
    }
    var longer := kids[..n + 1];
    assert forall j | 0 <= j < n :: longer[j] == kids[..n][j] == kids[j];
    assert longer[n] == kids[n];
  }

  /** A directory.  A write may fail unless the directory is reliable. */
  class Directory {
    const reliable: bool
    var files: set<string>
    var signing: Option<Manifest>
    var code: Option<CodeManifest>
    var pepper: bool
    ghost var history: seq<Disk>

    ghost function Now(): Disk
      reads this
    {
      Disk(files, signing, code, pepper)
    }

    ghost predicate Valid()
      reads this
    {
      && |history| > 0 && history[|history| - 1] == Now()
      && forall i | 0 <= i < |history| :: DiskGood(history[i])
    }

    constructor (reliable: bool)
      ensures Valid() && Now() == Disk({}, None, None, false) && this.reliable == reliable
    {
      this.reliable := reliable;
      files, signing, code, pepper := {}, None, None, false;
      history := [Disk({}, None, None, false)];
    }

    /** Writes the key file, refusing a name that is taken. */
    method GenerateSigningKey(algorithm: Algorithm, kid: string) returns (r: Result<Key, Failure>)
      requires Valid()
      modifies `files, `history
      ensures Valid() && old(history) <= history
      ensures r.Ok? ==> r.value == NewKey(algorithm, kid) && algorithm in ALGORITHMS
                        && FileOf(kid) !in old(files) && files == old(files) + {FileOf(kid)}
      ensures r.Err? ==> files == old(files)
      ensures reliable && algorithm in {RS256, ES256, EdDSA} && FileOf(kid) !in old(files) ==> r.Ok?
    {
      if algorithm !in ALGORITHMS {
        return Err(Refused);
      }
      var written: bool := *;
      if FileOf(kid) in files || !(reliable || written) {
        return Err(WriteFailed);
      }
      if signing.Some? {
        MoreFilesGood(signing.value, files, FileOf(kid));
      }
      files := files + {FileOf(kid)};
      history := history + [Now()];
      return Ok(NewKey(algorithm, kid));
    }

    /** Validates the manifest and puts it in place in one rename. */
    method WriteSigningManifest(m: Manifest) returns (r: Result<(), Failure>)
      requires Valid() && Good(m, files)
      modifies `signing, `history
      ensures Valid() && old(history) <= history
      ensures signing == if r.Ok? then Some(m) else old(signing)
      ensures r.Err? ==> r.error == WriteFailed
      ensures reliable ==> r.Ok?
    {
      // Validation of what this program generates cannot fail.
      GoodLoads(m, files);
      assert RingLoads(m, files);
      var renamed: bool := *;
      if !(reliable || renamed) {
        return Err(WriteFailed);
      }
      signing := Some(m);
      history := history + [Now()];
      return Ok(());
    }

    method WriteCodeManifest(m: CodeManifest) returns (r: Result<(), Failure>)
      requires Valid() && GoodCode(m)
      modifies `code, `history
      ensures Valid() && old(history) <= history
      ensures code == if r.Ok? then Some(m) else old(code)
      ensures reliable ==> r.Ok?
    {
      var renamed: bool := *;
      if !(reliable || renamed) {
        return Err(WriteFailed);
      }
      code := Some(m);
      history := history + [Now()];
      return Ok(());
    }

    /** The loop of initialize over the three algorithms. */
    method GenerateFirstKeys(kids: seq<string>) returns (r: Result<seq<Key>, Failure>)
      requires Valid() && |kids| == 3
      modifies `files, `history
      ensures Valid() && old(history) <= history
      ensures r.Ok? ==>
                && files == old(files) + {FileOf(kids[0]), FileOf(kids[1]), FileOf(kids[2])}
                && kids[0] != kids[1] && kids[0] != kids[2] && kids[1] != kids[2]
                && r.value == [NewKey(RS256, kids[0]), NewKey(ES256, kids[1]), NewKey(EdDSA, kids[2])]
      ensures reliable && UnusedKids(kids, old(files)) ==> r.Ok?
      ensures r.Ok? ==> UnusedKids(kids, old(files))
    {
      var keys: seq<Key> := [];
      var algorithms := [RS256, ES256, EdDSA];
      var i := 0;
      while i < 3
        invariant 0 <= i <= 3 && Valid() && old(history) <= history && |keys| == i
        invariant files == old(files) + set j | 0 <= j < i :: FileOf(kids[j])
        invariant forall j | 0 <= j < i :: keys[j] == NewKey(algorithms[j], kids[j])
        invariant UnusedKids(kids[..i], old(files))
      {
        NextUnused(kids, i, old(files));
        var entry := GenerateSigningKey(algorithms[i], kids[i]);
        if entry.Err? {
          return Err(entry.error);
        }
        keys := keys + [entry.value];
        i := i + 1;
      }
      assert kids[..3] == kids;
      return Ok(keys);
    }

    /** Creates the whole directory, refusing one that was begun before. */
    method Initialize(rs: string, es: string, ed: string, codeID: string, secret: string)
      returns (r: Result<(), Failure>)
      requires Valid() && codeID != ""
      modifies this
      ensures Valid() && old(history) <= history
      ensures old(signing).Some? || old(code).Some? || old(pepper) ==> r == Err(Refused) && Now() == old(Now())
      ensures r.Ok? ==> signing == Some(FirstManifest(rs, es, ed)) && pepper
      ensures r.Ok? ==> code == Some(CodeManifest(1, codeID, map[codeID := secret]))
      ensures r.Ok? ==> Fresh(Ring(signing.value, files, map[]))
      ensures r.Ok? ==> files == old(files) + {FileOf(rs), FileOf(es), FileOf(ed)}
      ensures reliable ==>
                (r.Ok? <==> && old(signing).None? && old(code).None? && !old(pepper)
                            && UnusedKids([rs, es, ed], old(files)))
    {
      if signing.Some? || code.Some? || pepper {
        return Err(Refused);
      }
      var keys := GenerateFirstKeys([rs, es, ed]);
      if keys.Err? {
        return Err(keys.error);
      }
      FirstIsGood(rs, es, ed, files);
      r := WriteSigningManifest(Manifest(1, keys.value));
      if r.Err? {
        return;
      }
      r := WriteCodeManifest(CodeManifest(1, codeID, map[codeID := secret]));
      if r.Err? {
        return;
      }
      var written: bool := *;
      if !(reliable || written) {
        return Err(WriteFailed);
      }
      pepper := true;
      history := history + [Now()];
      return Ok(());
    }

    /** One rotate-signing run, with the bounds on the durations that run checks first. */
    method RotateSigning(algorithm: Algorithm, publishFor: int, idTokenTTL: int, now: int, kid: string)
      returns (r: Result<(), Failure>)
      requires Valid()
      modifies `files, `signing, `history
      ensures Valid() && old(history) <= history
      ensures r.Ok? ==>
                && DurationsAccepted(publishFor, idTokenTTL)
                && old(signing).Some? && CanRotate(old(signing).value, old(files), algorithm, kid)
                && signing == Some(Rotated(old(signing).value, algorithm, publishFor, now, kid))
                && files == old(files) + {FileOf(kid)}
      ensures r.Err? ==> signing == old(signing) && (files == old(files) || files == old(files) + {FileOf(kid)})
      ensures || (r.Err? && files == old(files))
              || (old(signing).Some? && DurationsAccepted(publishFor, idTokenTTL)
                  && CanRotate(old(signing).value, old(files), algorithm, kid))
      ensures reliable ==>
                (r.Ok? <==> && MINUTE <= idTokenTTL <= 24 * HOUR
                            && idTokenTTL + 10 * MINUTE <= publishFor <= 90 * 24 * HOUR
                            && algorithm in {RS256, ES256, EdDSA}
                            && old(signing).Some? && |old(signing).value.keys| < 32 && FileOf(kid) !in old(files))
    {
      if signing.Some? {
        CanRotateIff(signing.value, files, algorithm, kid);
      }
      if !DurationsAccepted(publishFor, idTokenTTL) || algorithm !in ALGORITHMS {
        return Err(Refused);
      }
      if signing.None? {
        return Err(NotFound);
      }
      var manifest := signing.value;
      if manifest.version != 1 || |manifest.keys| == 0 || |manifest.keys| >= MAX_KEYS {
        return Err(BadManifest);
      }
      var kept := RetireKeys(manifest.keys, algorithm, now, publishFor);
      if kept.Err? {
        return Err(kept.error);
      }
      var entry := GenerateSigningKey(algorithm, kid);
      if entry.Err? {
        return Err(entry.error);
      }
      RotatedIsGood(manifest, old(files), algorithm, publishFor, now, kid);
      r := WriteSigningManifest(Manifest(1, kept.value + [entry.value]));
    }

    /** One rotate-code run.  The random id may collide; then the old secret of that id is overwritten. */
    method RotateCode(kid: string, secret: string) returns (r: Result<(), Failure>)
      requires Valid() && kid != ""
      modifies `code, `history
      ensures Valid() && old(history) <= history
      ensures r.Ok? ==>
                && old(code).Some? && CanRotateCode(old(code).value)
                && code == Some(RotatedCode(old(code).value, kid, secret))
      ensures r.Err? ==> code == old(code)
      ensures old(code).None? || !CanRotateCode(old(code).value) ==> r.Err?
      ensures reliable ==> (r.Ok? <==> old(code).Some? && |old(code).value.keys| < 16)
    {
      if code.None? {
        return Err(NotFound);
      }
      if !CanRotateCode(code.value) {
        return Err(BadManifest);
      }
      RotatedCodeIsGood(code.value, kid, secret);
      r := WriteCodeManifest(RotatedCode(code.value, kid, secret));
    }
  }
}
