/** What the sync engine promises: the decision policy, dry-run, the two
    mappings being inverse, batching, convergence, idempotence, and that
    the delete direction never touches content outside the managed subtree. */
module SyncProperties {
  import opened Paths
  import opened FileSystem
  import opened Sync

  // ---------------------------------------------------------------------
  // Log lines
  // ---------------------------------------------------------------------

  /** A line carries the dry-run prefix exactly when dry-run is on (for
      messages that do not themselves start with it), and the message
      follows the prefix unchanged. */
  lemma LogPrefix(dryrun: bool, msg: string)
    requires !StartsWith(msg, DRYRUN_STR)
    ensures StartsWith(Log(dryrun, msg), DRYRUN_STR) <==> dryrun
    ensures Log(dryrun, msg)[(if dryrun then |DRYRUN_STR| else 0)..] == msg
  {
    var line := Log(dryrun, msg);
    if dryrun {
      assert line[..|DRYRUN_STR|] == DRYRUN_STR;
    } else {
      assert line == msg;
    }
  }

  // ---------------------------------------------------------------------
  // copy_if_needed
  // ---------------------------------------------------------------------

  /** copy_if_needed does nothing at all (no log line, no change) exactly
      when `dest` is a regular file with the size and hash of `src`;
      otherwise, unless it raises before logging, it logs "src -> dest". */
  lemma CopySkipsExactlyWhenSame(st: State, src: Path, dest: Path, dryrun: bool, H: Bytes -> Digest)
    ensures CopyStep(st, src, dest, dryrun, H) == (st, Ok) <==> SameContent(st, src, dest, H)
    ensures !SameContent(st, src, dest, H) && !(dest in st.files && src !in st.files) ==>
      var st' := CopyStep(st, src, dest, dryrun, H).0;
      |st'.out| == |st.out| + 1 && st'.out[..|st.out|] == st.out && st'.out[|st.out|] == Log(dryrun, CopyMessage(src, dest))
  {
    if !SameContent(st, src, dest, H) && !(dest in st.files && src !in st.files) {
      var st1 := PrintSpec(st, Log(dryrun, CopyMessage(src, dest)));
      assert |st1.out| == |st.out| + 1;
      if !dryrun {
        var (st2, o) := MakeDirsSpec(st1, Parent(dest));
        assert st2.out == st1.out;
        assert CopySpec(st2, src, dest).0.out == st1.out;
      }
    }
  }

  /** Dry-run makes the same decision and prints the same message as a real
      run, with the prefix in front, and changes no file or directory. */
  lemma CopyDryRunMirrorsRealRun(st: State, src: Path, dest: Path, H: Bytes -> Digest)
    ensures var (a, _) := CopyStep(st, src, dest, true, H);
            var (b, _) := CopyStep(st, src, dest, false, H);
      && SameTree(a, st)
      && (a.out == st.out <==> b.out == st.out)
      && (a.out != st.out ==> a.out == st.out + [DRYRUN_STR + CopyMessage(src, dest)] && b.out == st.out + [CopyMessage(src, dest)])
  {
    var m := CopyMessage(src, dest);
    assert Log(false, m) == m;
    assert Log(true, m) == DRYRUN_STR + m;
    var st1 := PrintSpec(st, m);
    var st2 := MakeDirsSpec(st1, Parent(dest)).0;
    assert st2.out == st1.out;
    assert CopySpec(st2, src, dest).0.out == st1.out;
  }

  /** A real copy that goes ahead leaves `dest` holding `src`'s bytes and its
      ancestors as directories, and changes no other file. */
  lemma CopyWritesDest(st: State, src: Path, dest: Path, H: Bytes -> Digest)
    requires src in st.files && !SameContent(st, src, dest, H)
    requires dest !in st.dirs && dest != src && dest != []
    requires forall k :: 0 <= k < |dest| ==> dest[..k] !in st.files
    ensures var (st', o) := CopyStep(st, src, dest, false, H);
      && o == Ok
      && st'.files == st.files[dest := st.files[src]]
      && st'.dirs == st.dirs + Prefixes(Parent(dest))
  {
    var st1 := PrintSpec(st, Log(false, CopyMessage(src, dest)));
    var p := Parent(dest);
    assert p == dest[..|dest| - 1];
    assert p !in st1.files;
    forall k | 0 < k < |p|
      ensures p[..k] !in st1.files
    {
      assert p[..k] == dest[..k];
    }
    var st2 := st1.(dirs := st1.dirs + Prefixes(p));
    assert MakeDirsSpec(st1, p) == (st2, Ok);
    assert dest !in Prefixes(p);
    assert p in st2.dirs;
    assert CopyDestination(st2, src, dest) == dest;
  }

  /** Calling copy_if_needed again right after a successful real copy does
      nothing. */
  lemma CopyIsIdempotent(st: State, src: Path, dest: Path, H: Bytes -> Digest)
    requires dest !in st.dirs && dest != []
    requires CopyStep(st, src, dest, false, H).1 == Ok
    ensures var st' := CopyStep(st, src, dest, false, H).0;
      CopyStep(st', src, dest, false, H) == (st', Ok)
  {
    var (st', o) := CopyStep(st, src, dest, false, H);
    CopyOutcome(st, src, dest, H);
    CopySkipsExactlyWhenSame(st', src, dest, false, H);
  }

  /** The effect of a successful real copy_if_needed on the tree: `dest` then
      holds content of `src`'s size and hash, `src` is unchanged, no other
      file changes, and only ancestors of `dest` become directories. */
  lemma CopyOutcome(st: State, src: Path, dest: Path, H: Bytes -> Digest)
    requires dest !in st.dirs && dest != []
    requires CopyStep(st, src, dest, false, H).1 == Ok
    ensures var st' := CopyStep(st, src, dest, false, H).0;
      && SameContent(st', src, dest, H)
      && src in st.files && st'.files[src] == st.files[src]
      && (forall p :: p != dest ==> (p in st'.files <==> p in st.files))
      && (forall p :: p != dest && p in st.files ==> st'.files[p] == st.files[p])
      && (forall q :: q in st'.dirs <==> q in st.dirs || (q in Prefixes(Parent(dest)) && !SameContent(st, src, dest, H)))
  {
    if !SameContent(st, src, dest, H) {
      var st1 := PrintSpec(st, Log(false, CopyMessage(src, dest)));
      var st2 := st1.(dirs := st1.dirs + Prefixes(Parent(dest)));
      assert MakeDirsSpec(st1, Parent(dest)) == (st2, Ok);
      assert CopyStep(st, src, dest, false, H) == CopySpec(st2, src, dest);
      assert dest !in Prefixes(Parent(dest));
      assert CopyDestination(st2, src, dest) == dest;
      assert src in st.files && dest != src;
      assert CopySpec(st2, src, dest) == WriteSpec(st2, dest, st.files[src]);
      assert WriteSpec(st2, dest, st.files[src]).1 == Ok;
      assert CopyStep(st, src, dest, false, H).0 == st2.(files := st.files[dest := st.files[src]]);
    }
  }

  // ---------------------------------------------------------------------
  // delete_if_not_exists
  // ---------------------------------------------------------------------

  /** delete_if_not_exists removes `dest` exactly when `src` exists as no kind
      of entry and dry-run is off (it raises if `dest` is then not a regular
      file); no other path changes and no directory changes. */
  lemma DeleteDecision(st: State, dest: Path, src: Path, dryrun: bool)
    ensures var (st', o) := DeleteStep(st, dest, src, dryrun);
      && st'.dirs == st.dirs
      && (dest in st.files && dest !in st'.files <==> dest in st.files && !Exists(st, src) && !dryrun)
      && (forall p :: p != dest ==> (p in st'.files <==> p in st.files))
      && (forall p :: p != dest && p in st.files ==> st'.files[p] == st.files[p])
      && (o.Raised? <==> !Exists(st, src) && !dryrun && dest !in st.files)
  {
  }

  // ---------------------------------------------------------------------
  // The two mappings
  // ---------------------------------------------------------------------

  /** The delete direction undoes the copy direction: the directory of a
      copied file maps back to the directory of its source file. */
  lemma {:induction false} DeleteInvertsCopy(s: Path, src: Path, tgt: Path)
    requires StrictlyUnder(s, src) && LastName(src) != ""
    ensures IsPrefix(Parent(src), s)
    ensures var d := CopyTarget(s, src, tgt);
      && StrictlyUnder(d, ManagedRoot(src, tgt))
      && SourceFor(src, tgt, Parent(d)) == Some(Parent(s))
      && LastName(d) == LastName(s)
  {
    PrefixTransitive(Parent(src), src, s);
    var d := CopyTarget(s, src, tgt);
    var m := ManagedRoot(src, tgt);
    assert m == tgt + [LastName(src)];
    assert d == m + s[|src|..];
    assert d[..|m|] == m;
    var pd := Parent(d);
    assert pd == m + s[|src|..|s| - 1];
    assert IsPrefix(m, pd) by {
      assert pd[..|m|] == m;
    }
    assert pd[|m|..] == s[|src|..|s| - 1];
    assert src + s[|src|..|s| - 1] == Parent(s) by {
      assert s[..|src|] == src;
    }
  }

  /** And the copy direction undoes the delete direction on every file of
      the managed subtree. */
  lemma {:induction false} CopyInvertsDelete(g: Path, src: Path, tgt: Path)
    requires StrictlyUnder(g, ManagedRoot(src, tgt)) && LastName(src) != ""
    ensures SourceFor(src, tgt, Parent(g)).Some?
    ensures var s := SourceFor(src, tgt, Parent(g)).value + [LastName(g)];
      && StrictlyUnder(s, src) && IsPrefix(Parent(src), s)
      && CopyTarget(s, src, tgt) == g
  {
    var m := ManagedRoot(src, tgt);
    var pg := Parent(g);
    assert IsPrefix(m, pg) by {
      assert pg[..|m|] == g[..|m|];
    }
    var s := src + pg[|m|..] + [LastName(g)];
    assert s[..|src|] == src;
    PrefixTransitive(Parent(src), src, s);
    assert s[|src|..] == pg[|m|..] + [LastName(g)];
    assert m + pg[|m|..] == pg;
    ParentJoin(g);
  }

  /** A destination directory maps back into the source exactly when it
      lies in the subtree its mapping strips: dest/<stem> as written,
      dest/<name> corrected; elsewhere the file is skipped. */
  lemma SkipsOutsideManagedSubtree(src: Path, dest: Path, subdir: Path)
    ensures SourceForAsWritten(src, dest, subdir).None? <==> !IsPrefix(StemRoot(src, dest), subdir)
    ensures SourceFor(src, dest, subdir).None? <==> !IsPrefix(ManagedRoot(src, dest), subdir)
  {
  }

  /** A name without a dot has no suffix. */
  lemma DotlessHasNoSuffix(n: Name)
    requires '.' !in n
    ensures Suffix(n) == "" && Stem(n) == n
  {
  }

  /** For a start name without a dot, both mappings take a directory
      dest/<name>/<rest> to src/<rest>. */
  lemma DotlessMapping(src: Path, dest: Path, rest: Path)
    requires LastName(src) != "" && '.' !in LastName(src)
    ensures SourceForAsWritten(src, dest, dest + [LastName(src)] + rest) == Some(src + rest)
    ensures SourceFor(src, dest, dest + [LastName(src)] + rest) == Some(src + rest)
  {
    var sub := dest + [LastName(src)] + rest;
    DotlessHasNoSuffix(LastName(src));
    StemMappingAgrees(src, dest, sub);
    var m := ManagedRoot(src, dest);
    assert sub[..|m|] == m && sub[|m|..] == rest;
  }

  /** The three directory examples of test_get, for the mapping as written,
      which they call; their start names have no suffix, so the corrected
      mapping gives the same results. */
  lemma SourceForExamples()
    ensures SourceForAsWritten(["base", "bar"], ["base2", "exp", "foo"], ["base2", "exp", "foo", "bar", "az"]) == Some(["base", "bar", "az"])
    ensures SourceForAsWritten(["base", "bar"], ["base", "foo"], ["base", "foo", "bar", "baz", "quux"]) == Some(["base", "bar", "baz", "quux"])
    ensures SourceForAsWritten(["tmp", "pytest", "pytest-128", "test_traverse_for_delete0", "foo"],
                               ["tmp", "pytest", "pytest-128", "test_traverse_for_delete0", "bar"],
                               ["tmp", "pytest", "pytest-128", "test_traverse_for_delete0", "bar", "foo", "dir1", "dir2"])
         == Some(["tmp", "pytest", "pytest-128", "test_traverse_for_delete0", "foo", "dir1", "dir2"])
    ensures SourceFor(["base", "bar"], ["base2", "exp", "foo"], ["base2", "exp", "foo", "bar", "az"]) == Some(["base", "bar", "az"])
    ensures SourceFor(["base", "bar"], ["base", "foo"], ["base", "foo", "bar", "baz", "quux"]) == Some(["base", "bar", "baz", "quux"])
    ensures SourceFor(["tmp", "pytest", "pytest-128", "test_traverse_for_delete0", "foo"],
                      ["tmp", "pytest", "pytest-128", "test_traverse_for_delete0", "bar"],
                      ["tmp", "pytest", "pytest-128", "test_traverse_for_delete0", "bar", "foo", "dir1", "dir2"])
         == Some(["tmp", "pytest", "pytest-128", "test_traverse_for_delete0", "foo", "dir1", "dir2"])
  {
    assert '.' !in "bar" && '.' !in "foo";
    var b: Path := ["base", "bar"];
    assert LastName(b) == "bar";
    DotlessMapping(b, ["base2", "exp", "foo"], ["az"]);
    assert ["base2", "exp", "foo"] + ["bar"] + ["az"] == ["base2", "exp", "foo", "bar", "az"];
    assert b + ["az"] == ["base", "bar", "az"];
    DotlessMapping(b, ["base", "foo"], ["baz", "quux"]);
    assert ["base", "foo"] + ["bar"] + ["baz", "quux"] == ["base", "foo", "bar", "baz", "quux"];
    assert b + ["baz", "quux"] == ["base", "bar", "baz", "quux"];
    var t: Path := ["tmp", "pytest", "pytest-128", "test_traverse_for_delete0"];
    var src3, dest3 := t + ["foo"], t + ["bar"];
    assert LastName(src3) == "foo";
    DotlessMapping(src3, dest3, ["dir1", "dir2"]);
    assert src3 == ["tmp", "pytest", "pytest-128", "test_traverse_for_delete0", "foo"];
    assert dest3 == ["tmp", "pytest", "pytest-128", "test_traverse_for_delete0", "bar"];
    assert dest3 + ["foo"] + ["dir1", "dir2"] == ["tmp", "pytest", "pytest-128", "test_traverse_for_delete0", "bar", "foo", "dir1", "dir2"];
    assert src3 + ["dir1", "dir2"] == ["tmp", "pytest", "pytest-128", "test_traverse_for_delete0", "foo", "dir1", "dir2"];
  }

  // ---------------------------------------------------------------------
  // Stem versus name: the mapping as written
  // ---------------------------------------------------------------------

  /** With a source root named "foo.d", the mapping as written strips
      "bar/foo" (the stem) although the copy direction writes under
      "bar/foo.d": an unrelated directory "bar/foo" maps into the source and
      the managed directory "bar/foo.d" maps nowhere. */
  lemma StemMappingMisroutes()
    ensures Stem("foo.d") == "foo"
    ensures CopyTarget(["foo.d", "x"], ["foo.d"], ["bar"]) == ["bar", "foo.d", "x"]
    ensures SourceForAsWritten(["foo.d"], ["bar"], ["bar", "foo.d"]) == None
    ensures SourceForAsWritten(["foo.d"], ["bar"], ["bar", "foo"]) == Some(["foo.d"])
    ensures SourceFor(["foo.d"], ["bar"], ["bar", "foo.d"]) == Some(["foo.d"])
    ensures SourceFor(["foo.d"], ["bar"], ["bar", "foo"]) == None
  {
    assert RFind("foo.d", '.') == 3 by {
      assert "foo.d"[4] == 'd';
      assert "foo.d"[..4] == "foo.";
      assert "foo.d"[3] == '.';
    }
    assert "foo.d"[..3] == "foo";
    assert ["bar", "foo.d"][..2] == ["bar", "foo.d"];
    assert ["bar", "foo"][..2] == ["bar", "foo"];
    assert ["bar", "foo"][2..] == [];
    assert ["bar", "foo.d"][2..] == [];
    assert ["foo.d"] + [] == ["foo.d"];
  }

  /** As a consequence, a delete run with the mapping as written removes an
      unrelated target file "bar/foo/y" when the source has no "foo.d/y". */
  lemma StemMappingDeletesUnrelated(st: State)
    requires ["bar", "foo", "y"] in st.files
    requires !Exists(st, ["foo.d", "y"])
    ensures SourceForAsWritten(["foo.d"], ["bar"], ["bar", "foo"]) == Some(["foo.d"])
    ensures ["bar", "foo", "y"] !in DeleteStep(st, ["bar", "foo", "y"], ["foo.d"] + ["y"], false).0.files
  {
    StemMappingMisroutes();
    assert ["foo.d"] + ["y"] == ["foo.d", "y"];
  }

  /** When the source root's name has no suffix its stem is its name, and
      the mapping as written is the corrected one. */
  lemma StemMappingAgrees(src: Path, dest: Path, subdir: Path)
    requires Suffix(LastName(src)) == ""
    ensures StemRoot(src, dest) == ManagedRoot(src, dest)
    ensures SourceForAsWritten(src, dest, subdir) == SourceFor(src, dest, subdir)
  {
    StemSuffix(LastName(src));
  }

  /** The delete items of the code as written all target files strictly
      under dest/<stem>; they reach the managed subtree dest/<name>, where
      the copy direction writes, exactly when the source root's name has no
      suffix. */
  lemma {:induction false} DeleteJobsStayManaged(src: Path, dest: Path, dirpath: Path, names: seq<Name>)
    ensures forall k :: 0 <= k < |DeleteJobsIn(src, StemRoot(src, dest), dirpath, names)| ==>
      var job := DeleteJobsIn(src, StemRoot(src, dest), dirpath, names)[k];
      && job.DeleteJob? && StrictlyUnder(job.dest, StemRoot(src, dest))
      && (StrictlyUnder(job.dest, ManagedRoot(src, dest)) <==> Suffix(LastName(src)) == "")
    decreases |names|
  {
    if names != [] {
      DeleteJobsStayManaged(src, dest, dirpath, names[1..]);
      var r := StemRoot(src, dest);
      var m := ManagedRoot(src, dest);
      StemSuffix(LastName(src));
      if IsPrefix(r, dirpath) {
        var g := dirpath + [names[0]];
        assert g[..|r|] == dirpath[..|r|];
        if Suffix(LastName(src)) != "" {
          assert r == dest + [Stem(LastName(src))] && m == dest + [LastName(src)];
          assert |Stem(LastName(src))| < |LastName(src)|;
          assert g[|dest|] == r[|dest|];
        }
      }
    }
  }
}
