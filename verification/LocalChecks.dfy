/**
 The one-shot check against the daemon's: when the two agree on every system and
 manifest.
 */
module LocalChecks {
  import opened Wrappers
  import opened Manifests
  import opened FileChecks
  import opened Systems

  /** The one-shot check reports what a daemon with these settings emits. */
  ghost predicate Matches(s: System, m: Manifest, configured: seq<string>, fast: bool) {
    IsWellFormed(m) ==> Deviations(s, m, DEFAULT_CHECKS, false) == Deviations(s, m, Effective(configured), fast)
  }

  /** The full mode, and of the names that are consulted only "mode". */
  predicate IsPlain(configured: seq<string>, fast: bool) {
    var checks := Effective(configured);
    !fast && "mode" in checks && "size" !in checks && "mtime" !in checks
  }

  lemma DefaultIsPlain()
    ensures IsPlain(DEFAULT_CHECKS, false)
  {
    assert DEFAULT_CHECKS[1] == "mode";
    assert |"size"| == 4 && "size"[0] == 's' && |"mtime"| == 5 && |"mode"| == 4 && "mode"[0] == 'm' && |"sha256"| == 6;
  }

  lemma {:induction false} PlainChecksAgree(fs: FileSystem, files: seq<ManifestFile>, configured: seq<string>)
    requires AllCheckable(files) && IsPlain(configured, false)
    ensures CheckInOrder(fs, files, DEFAULT_CHECKS, false) == CheckInOrder(fs, files, Effective(configured), false)
  {
    if files != [] {
      assert files[0] in files && AllCheckable(files[1..]);
      PlainChecksAgree(fs, files[1..], configured);
      DefaultIsPlain();
      assert CheckFile(fs, files[0], DEFAULT_CHECKS, false) == CheckFile(fs, files[0], Effective(configured), false);
    }
  }

  /** A manifest of one file, and a system that has it with other attributes. */
  const ENTRY := ManifestFile("/f", "0", "644", 1, 1)
  const ALONE := Manifest(1, 0, Of([ENTRY]), Nil, Nil, Nil, Nil)

  function With(attrs: FileAttrs): System {
    System(map["/f" := Node(false, File(true, attrs, true))], [], true, Units(true, true, [], {}, {}))
  }

  lemma AloneIff(attrs: FileAttrs, checks: seq<string>, fast: bool)
    ensures IsWellFormed(ALONE)
    ensures Deviations(With(attrs), ALONE, checks, fast) == [] <==> CheckFile(With(attrs).fs, ENTRY, checks, fast).None?
  {
    var files := ALONE.files.Items();
    assert files == [ENTRY] && files[1..] == [];
    assert AllCheckable(files);
    assert CheckInOrder(With(attrs).fs, files[1..], checks, fast) == [];
  }

  /** Where `attrs` passes one of the two checks only, they do not agree. */
  lemma Differs(attrs: FileAttrs, configured: seq<string>, fast: bool)
    requires CheckFile(With(attrs).fs, ENTRY, DEFAULT_CHECKS, false).None? <==>
             CheckFile(With(attrs).fs, ENTRY, Effective(configured), fast).Some?
    ensures !Matches(With(attrs), ALONE, configured, fast)
  {
    AloneIff(attrs, DEFAULT_CHECKS, false);
    AloneIff(attrs, Effective(configured), fast);
  }

  lemma OtherSettingsDiffer(configured: seq<string>, fast: bool)
    requires !IsPlain(configured, fast)
    ensures exists attrs :: !Matches(With(attrs), ALONE, configured, fast)
  {
    var checks := Effective(configured);
    DefaultIsPlain();
    assert "755"[0] != "644"[0] && "1"[0] != "0"[0];
    if fast {
      Differs(FileAttrs("1", 1, 1, "644"), configured, fast);
    } else if "mode" !in checks {
      Differs(FileAttrs("0", 1, 1, "755"), configured, fast);
    } else if "size" in checks {
      Differs(FileAttrs("0", 2, 1, "644"), configured, fast);
    } else {
      Differs(FileAttrs("0", 1, 2, "644"), configured, fast);
    }
  }

  /**
   The one-shot check matches the daemon on every system and manifest exactly when
   the daemon runs in full and its check set holds "mode" and neither "size" nor
   "mtime"; an empty one is such a set.
   */
  lemma LocalMatchesIff(configured: seq<string>, fast: bool)
    ensures (forall s, m :: Matches(s, m, configured, fast)) <==> IsPlain(configured, fast)
  {
    if IsPlain(configured, fast) {
      forall s, m
        ensures Matches(s, m, configured, fast)
      {
        if IsWellFormed(m) {
          PlainChecksAgree(s.fs, m.files.Items(), configured);
          assert FileDeviations(s.fs, m.files.Items(), DEFAULT_CHECKS, false)
              == FileDeviations(s.fs, m.files.Items(), Effective(configured), fast);
        }
      }
    } else {
      OtherSettingsDiffer(configured, fast);
    }
  }
}
