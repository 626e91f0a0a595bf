/** Where the sanitized object is written (`write_dicom`, lines 52-55): the
    key is split into directory and file name (`os.path.split`), the last
    directory segment is dropped, and `output` plus the file name are joined
    back on (`os.path.join`). The functions below follow the POSIX path
    helpers character by character; the lemmas state the result in terms of
    the key's `/`-separated segments. */
module OutputPath {

  import opened Strings

  /** The stage directory the sanitized object goes to. */
  const OutputStage: string := "output"

  /** Index of the last `c` in `s`, or -1 (Python's `s.rfind(c)`). */
  function LastIndexOf(s: string, c: char): (i: int)
    ensures -1 <= i < |s|
    ensures i >= 0 ==> s[i] == c
    ensures forall j :: i < j < |s| ==> s[j] != c
  {
    if |s| == 0 then -1
    else if s[|s| - 1] == c then |s| - 1
    else LastIndexOf(s[..|s| - 1], c)
  }

  /** `s` without its trailing `c`s (Python's `s.rstrip(c)`). */
  function TrimTrailing(s: string, c: char): (r: string)
    ensures |r| <= |s| && r == s[..|r|]
    ensures |r| == 0 || r[|r| - 1] != c
    ensures forall j :: |r| <= j < |s| ==> s[j] == c
  {
    if |s| > 0 && s[|s| - 1] == c then TrimTrailing(s[..|s| - 1], c) else s
  }

  predicate AllSlashes(s: string)
  {
    forall i :: 0 <= i < |s| ==> s[i] == '/'
  }

  /** `os.path.split(p)`: everything after the last `/` is the file name;
      the directory part loses its trailing slashes unless it consists of
      slashes only. */
  function PathSplit(p: string): (r: (string, string))
    ensures '/' !in r.1
    ensures |r.1| <= |p| && p[|p| - |r.1|..] == r.1
    ensures |r.1| == |p| || p[|p| - |r.1| - 1] == '/'
    ensures |r.0| <= |p| - |r.1| && p[..|r.0|] == r.0
    ensures forall j :: |r.0| <= j < |p| - |r.1| ==> p[j] == '/'
    ensures r.0 == "" <==> |r.1| == |p|
    ensures |r.0| > 0 && r.0[|r.0| - 1] == '/' ==> AllSlashes(r.0)
    ensures AllSlashes(p[..|p| - |r.1|]) ==> r.0 == p[..|p| - |r.1|]
  {
    var i := LastIndexOf(p, '/') + 1;
    var head := p[..i];
    var tail := p[i..];
    assert '/' !in tail by {
      forall k | 0 <= k < |tail| ensures tail[k] != '/' {
        assert tail[k] == p[i + k];
      }
    }
    if |head| > 0 && !AllSlashes(head) then (TrimTrailing(head, '/'), tail) else (head, tail)
  }

  /** One step of `os.path.join(a, b)`: an absolute `b` replaces `a`;
      otherwise `b` is appended, with a `/` between unless `a` is empty or
      already ends in one. */
  function PathJoin(a: string, b: string): (r: string)
    ensures |b| > 0 && b[0] == '/' ==> r == b
    ensures (|b| == 0 || b[0] != '/') ==> |r| >= |a| + |b| && r[..|a|] == a && r[|r| - |b|..] == b
    ensures (|b| == 0 || b[0] != '/') ==>
              |r| == |a| + |b| + (if |a| > 0 && a[|a| - 1] != '/' then 1 else 0)
    ensures (|b| == 0 || b[0] != '/') && |a| > 0 && a[|a| - 1] != '/' ==> r[|a|] == '/'
  {
    if |b| > 0 && b[0] == '/' then b
    else if |a| == 0 || a[|a| - 1] == '/' then a + b
    else a + "/" + b
  }

  /** Lines 53-55: the key the sanitized object is written to. */
  function OutputKey(key: string): string
  {
    var parts := PathSplit(key);
    Relocate(parts.0, parts.1)
  }

  /** Whatever the key, the output key ends in `output/` followed by the
      key's file name, with `output` a whole segment. */
  lemma OutputKeyEndsInStageAndFile(key: string)
    ensures var r := OutputKey(key);
            var file := PathSplit(key).1;
            && |r| >= |OutputStage| + 1 + |file|
            && r[|r| - |file| - |OutputStage| - 1..] == OutputStage + "/" + file
            && (|r| == |OutputStage| + 1 + |file| || r[|r| - |file| - |OutputStage| - 2] == '/')
  {
    var parts := PathSplit(key);
    assert OutputKey(key) == Relocate(parts.0, parts.1);
    RelocateEndsInStageAndFile(parts.0, parts.1);
  }

  /** Lines 54-55 given the split key: drop the last segment of the
      directory part, then join `output` and the file name onto the rest. */
  function Relocate(inpath: string, infile: string): string
  {
    PathJoin(PathJoin(Stem(inpath), OutputStage), infile)
  }

  /** Whatever the directory part, a slash-free file name ends up right
      after a whole `output` segment. */
  lemma RelocateEndsInStageAndFile(inpath: string, infile: string)
    requires '/' !in infile
    ensures var r := Relocate(inpath, infile);
            && |r| >= |OutputStage| + 1 + |infile|
            && r[|r| - |infile| - |OutputStage| - 1..] == OutputStage + "/" + infile
            && (|r| == |OutputStage| + 1 + |infile| || r[|r| - |infile| - |OutputStage| - 2] == '/')
  {
    assert Relocate(inpath, infile) == PathJoin(PathJoin(Stem(inpath), OutputStage), infile);
    StageAndFileJoinedOnto(Stem(inpath), infile);
  }

  lemma StageAndFileJoinedOnto(stem: string, infile: string)
    requires '/' !in infile
    ensures var r := PathJoin(PathJoin(stem, OutputStage), infile);
            && |r| >= |OutputStage| + 1 + |infile|
            && r[|r| - |infile| - |OutputStage| - 1..] == OutputStage + "/" + infile
            && (|r| == |OutputStage| + 1 + |infile| || r[|r| - |infile| - |OutputStage| - 2] == '/')
  {
    var staged := PathJoin(stem, OutputStage);
    StageJoinedOnto(stem);
    FileJoinedOntoStaged(staged, infile);
  }

  /** `output` joined onto any stem ends the result as a whole segment. */
  lemma StageJoinedOnto(stem: string)
    ensures var staged := PathJoin(stem, OutputStage);
            && |staged| >= 6 && staged[|staged| - 6..] == OutputStage
            && (|staged| == 6 || staged[|staged| - 7] == '/')
  {
  }

  /** A slash-free file joined onto a path ending in a whole `output`
      segment follows it after one `/`. */
  lemma FileJoinedOntoStaged(staged: string, infile: string)
    requires '/' !in infile
    requires |staged| >= 6 && staged[|staged| - 6..] == OutputStage
    requires |staged| == 6 || staged[|staged| - 7] == '/'
    ensures var r := PathJoin(staged, infile);
            && |r| >= |OutputStage| + 1 + |infile|
            && r[|r| - |infile| - |OutputStage| - 1..] == OutputStage + "/" + infile
            && (|r| == |OutputStage| + 1 + |infile| || r[|r| - |infile| - |OutputStage| - 2] == '/')
  {
    NoLeadingSlash(infile);
    LastOfStage(staged);
    JoinAfterNonSlash(staged, infile);
    StageThenFile(staged, infile);
  }

  lemma LastOfStage(staged: string)
    requires |staged| >= 6 && staged[|staged| - 6..] == OutputStage
    ensures staged[|staged| - 1] != '/'
  {
    assert staged[|staged| - 1] == OutputStage[5];
  }

  /** Joining onto a non-empty path that does not end in `/` inserts one
      `/`. */
  lemma JoinAfterNonSlash(a: string, b: string)
    requires |a| > 0 && a[|a| - 1] != '/'
    requires |b| == 0 || b[0] != '/'
    ensures PathJoin(a, b) == a + ("/" + b)
  {
    assert a + "/" + b == a + ("/" + b);
  }

  lemma StageThenFile(staged: string, infile: string)
    requires |staged| >= 6 && staged[|staged| - 6..] == OutputStage
    requires |staged| == 6 || staged[|staged| - 7] == '/'
    ensures var r := staged + ("/" + infile);
            && |r| >= |OutputStage| + 1 + |infile|
            && r[|r| - |infile| - |OutputStage| - 1..] == OutputStage + "/" + infile
            && (|r| == |OutputStage| + 1 + |infile| || r[|r| - |infile| - |OutputStage| - 2] == '/')
  {
    var tail := "/" + infile;
    SliceOfConcat(staged, tail, |staged| - 6);
    assert OutputStage + "/" + infile == OutputStage + tail;
  }

  /** Line 54: the directory part without its last segment. */
  function Stem(inpath: string): string
  {
    var dirs := Split(inpath, '/');
    Join(dirs[..|dirs| - 1], '/')
  }

  /* ---------------------------------------------------------------------
     The key as segments
     --------------------------------------------------------------------- */

  /** A key `d1/.../dn/file` whose directory segments are non-empty (a
      leading empty segment, i.e. an absolute key, is allowed when there are
      at least two directories after it) and whose file name has no `/`. */
  predicate StagedKey(dirs: seq<string>, file: string)
  {
    && |dirs| >= 1
    && SeparatorFree(dirs, '/')
    && '/' !in file
    && (forall i :: 0 < i < |dirs| ==> dirs[i] != "")
    && (dirs[0] == "" ==> |dirs| >= 3)
  }

  lemma {:induction false} LastSlashBeforeFile(a: string, file: string)
    requires '/' !in file
    ensures LastIndexOf(a + "/" + file, '/') == |a|
    decreases |file|
  {
    var s := a + "/" + file;
    if |file| > 0 {
      assert s[|s| - 1] == file[|file| - 1];
      assert s[..|s| - 1] == a + "/" + file[..|file| - 1];
      var front := file[..|file| - 1];
      assert '/' !in front by {
        forall k | 0 <= k < |front| ensures front[k] != '/' {
          assert front[k] == file[k];
        }
      }
      LastSlashBeforeFile(a, file[..|file| - 1]);
    } else {
      assert s == a + "/";
    }
  }

  /** A join ends with the last piece; when that piece is non-empty and
      slash-free, the join is non-empty and does not end in `/`. */
  lemma {:induction false} JoinEndsWithLastPiece(parts: seq<string>)
    requires |parts| >= 1
    requires parts[|parts| - 1] != "" && '/' !in parts[|parts| - 1]
    ensures |Join(parts, '/')| >= 1
    ensures Join(parts, '/')[|Join(parts, '/')| - 1] != '/'
  {
    var n := |parts|;
    var last := parts[n - 1];
    assert last[|last| - 1] in last;
    if n >= 2 {
      assert parts[..n - 1] + [last] == parts;
      JoinSnoc(parts[..n - 1], last, '/');
    }
  }

  /** Splitting `a/file`, where `a` does not end in `/`, gives `a` and
      `file`. */
  lemma {:induction false} PathSplitAtLastSlash(a: string, file: string)
    requires |a| >= 1 && a[|a| - 1] != '/'
    requires '/' !in file
    ensures PathSplit(a + "/" + file) == (a, file)
  {
    var key := a + "/" + file;
    LastSlashBeforeFile(a, file);
    var head := key[..|a| + 1];
    assert head == a + "/";
    assert key[|a| + 1..] == file;
    assert !AllSlashes(head) by {
      assert head[|a| - 1] == a[|a| - 1];
    }
    assert TrimTrailing(head, '/') == a by {
      assert head[..|head| - 1] == a;
    }
  }

  /** With the directory part `d1/.../dn` in hand, the last segment is
      replaced by `output`. */
  lemma {:induction false} RelocateSegments(dirs: seq<string>, file: string)
    requires StagedKey(dirs, file)
    ensures Relocate(Join(dirs, '/'), file) == Join(dirs[..|dirs| - 1] + [OutputStage, file], '/')
  {
    var front := dirs[..|dirs| - 1];
    StemOfJoin(dirs);
    NoLeadingSlash(file);
    if |front| == 0 {
      assert Join(front, '/') == "";
      assert front + [OutputStage, file] == [OutputStage] + [file];
    } else {
      assert front[|front| - 1] == dirs[|dirs| - 2];
      JoinOntoStem(front, file);
    }
  }

  /** The stem of a joined directory part is the join of all segments but
      the last. */
  lemma StemOfJoin(dirs: seq<string>)
    requires |dirs| >= 1 && SeparatorFree(dirs, '/')
    ensures Stem(Join(dirs, '/')) == Join(dirs[..|dirs| - 1], '/')
  {
    SplitJoin(dirs, '/');
    StemOfSplit(Join(dirs, '/'), dirs);
  }

  lemma StemOfSplit(s: string, dirs: seq<string>)
    requires Split(s, '/') == dirs
    ensures Stem(s) == Join(dirs[..|dirs| - 1], '/')
  {
  }

  lemma NoLeadingSlash(file: string)
    requires '/' !in file
    ensures |file| == 0 || file[0] != '/'
  {
    if |file| > 0 {
      assert file[0] in file;
    }
  }

  /** Joining `output` and the file onto a non-empty stem that does not end
      in `/` puts one `/` before each. */
  lemma {:induction false} JoinOntoStem(front: seq<string>, file: string)
    requires |front| >= 1
    requires front[|front| - 1] != "" && '/' !in front[|front| - 1]
    requires |file| == 0 || file[0] != '/'
    ensures PathJoin(PathJoin(Join(front, '/'), OutputStage), file)
            == Join(front + [OutputStage, file], '/')
  {
    var stem := Join(front, '/');
    JoinEndsWithLastPiece(front);
    assert PathJoin(stem, OutputStage) == stem + "/" + OutputStage;
    JoinSnoc(front, OutputStage, '/');
    assert front + [OutputStage, file] == (front + [OutputStage]) + [file];
    JoinSnoc(front + [OutputStage], file, '/');
  }

  /** Replacing the stage: for `d1/.../dn/file`, the sanitized object goes
      to `d1/.../d(n-1)/output/file` — the file name and every ancestor
      directory are kept, only the last directory segment is replaced. */
  lemma {:induction false} OutputKeyReplacesStage(dirs: seq<string>, file: string)
    requires StagedKey(dirs, file)
    ensures OutputKey(Join(dirs + [file], '/'))
            == Join(dirs[..|dirs| - 1] + [OutputStage, file], '/')
  {
    var a := Join(dirs, '/');
    JoinSnoc(dirs, file, '/');
    JoinEndsWithLastPiece(dirs);
    PathSplitAtLastSlash(a, file);
    RelocateSegments(dirs, file);
  }

  /** A key without a directory is written under `output/` rather than
      rejected. */
  lemma {:induction false} OutputKeyWithoutDirectory(key: string)
    requires '/' !in key
    ensures OutputKey(key) == OutputStage + "/" + key
  {
    var i := LastIndexOf(key, '/');
    assert i == -1;
    assert key[..0] == "" && key[0..] == key;
    assert PathSplit(key) == ("", key);
    assert Split("", '/') == [""];
    assert Stem("") == "";
    assert PathJoin("", OutputStage) == OutputStage;
    assert |key| == 0 || key[0] != '/' by {
      if |key| > 0 {
        assert key[0] in key;
      }
    }
  }

  /** The shape of the example on line 52 (`/dicom/input/f.dcm` to
      `/dicom/output/f.dcm`): an absolute key with a parent directory keeps
      its leading `/` and its parent. */
  lemma {:induction false} OutputKeyAbsolute(parent: string, stage: string, file: string)
    requires parent != "" && '/' !in parent
    requires stage != "" && '/' !in stage
    requires '/' !in file
    ensures OutputKey("/" + parent + "/" + stage + "/" + file)
            == "/" + parent + "/" + OutputStage + "/" + file
  {
    var dirs := ["", parent, stage];
    assert StagedKey(dirs, file);
    OutputKeyReplacesStage(dirs, file);
    JoinAbsolute(parent, stage, file);
    assert dirs[..2] + [OutputStage, file] == ["", parent, OutputStage] + [file];
    JoinAbsolute(parent, OutputStage, file);
  }

  /** The segments of `/parent/dir/file` joined back. */
  lemma JoinAbsolute(parent: string, dir: string, file: string)
    ensures Join(["", parent, dir] + [file], '/') == "/" + parent + "/" + dir + "/" + file
  {
    assert ["", parent, dir] + [file] == ["", parent, dir, file];
    JoinFourSegments("", parent, dir, file);
    assert "" + "/" == "/";
  }

  /** Four segments joined with `/`. */
  lemma {:induction false} JoinFourSegments(a: string, b: string, c: string, d: string)
    ensures Join([a, b, c, d], '/') == a + "/" + b + "/" + c + "/" + d
  {
    var p := [a, b, c, d];
    assert p[1..] == [b, c, d];
    assert p[1..][1..] == [c, d];
    assert p[1..][1..][1..] == [d];
    assert Join([c, d], '/') == c + "/" + d;
  }

  /** An absolute key with a single directory (`/input/f.dcm`) loses its
      leading `/`: the only segment left after dropping the stage is the
      empty one before the first `/`, and joining onto an empty stem adds no
      separator. */
  lemma {:induction false} OutputKeyShallowAbsolute(stage: string, file: string)
    requires stage != "" && '/' !in stage
    requires '/' !in file
    ensures OutputKey("/" + stage + "/" + file) == OutputStage + "/" + file
  {
    var dir := "/" + stage;
    var key := "/" + stage + "/" + file;
    assert key == dir + "/" + file;
    assert dir[|dir| - 1] == stage[|stage| - 1];
    assert stage[|stage| - 1] in stage;
    PathSplitAtLastSlash(dir, file);
    assert OutputKey(key) == Relocate(dir, file);
    SplitRooted(stage);
    StemOfSplit(dir, ["", stage]);
    assert ["", stage][..1] == [""];
    assert Stem(dir) == "";
    assert PathJoin("", OutputStage) == OutputStage;
    NoLeadingSlash(file);
  }

  /** A key with an empty segment right before the stage (`a//input/f.dcm`)
      does not keep that segment: the stem `a/` already ends in `/`, so
      joining `output` onto it adds no separator and the key becomes
      `a/output/f.dcm`, not `a//output/f.dcm`. */
  lemma {:induction false} OutputKeyEmptySegmentBeforeStage(parent: string, stage: string, file: string)
    requires parent != "" && '/' !in parent
    requires stage != "" && '/' !in stage
    requires '/' !in file
    ensures OutputKey(parent + "//" + stage + "/" + file) == parent + "/" + OutputStage + "/" + file
  {
    var dir := parent + "//" + stage;
    var key := parent + "//" + stage + "/" + file;
    assert key == dir + "/" + file;
    assert dir[|dir| - 1] == stage[|stage| - 1];
    assert stage[|stage| - 1] in stage;
    PathSplitAtLastSlash(dir, file);
    assert OutputKey(key) == Relocate(dir, file);
    SplitEmptyInner(parent, stage);
    StemOfSplit(dir, [parent, "", stage]);
    assert [parent, "", stage][..2] == [parent, ""];
    assert Join([parent, ""], '/') == parent + "/" by {
      assert [parent, ""][1..] == [""];
    }
    assert Stem(dir) == parent + "/";
    assert PathJoin(parent + "/", OutputStage) == parent + "/" + OutputStage;
    NoLeadingSlash(file);
  }

  /** `parent//stage` splits into `parent`, the empty segment and `stage`. */
  lemma SplitEmptyInner(parent: string, stage: string)
    requires '/' !in parent && '/' !in stage
    ensures Split(parent + "//" + stage, '/') == [parent, "", stage]
  {
    assert parent + "//" + stage == parent + ['/'] + ("/" + stage);
    SplitRooted(stage);
    SplitAfterPiece(parent, '/', "/" + stage);
  }

  /** `/stage` splits into the empty segment and `stage`. */
  lemma SplitRooted(stage: string)
    requires '/' !in stage
    ensures Split("/" + stage, '/') == ["", stage]
  {
    assert "/" + stage == "" + "/" + stage;
    SplitAfterPiece("", '/', stage);
    SplitWithoutSeparator(stage, '/');
  }
}
