/**
 * Stimulus selection (build/lib/audio_preprocessing/io/_select_stimuli.py): turning a
 * list of stories, or the stories of some sessions, into a map from story name to the
 * file that holds it. The file system is an abstract tree of relative paths, the
 * session table a parameter, and the glob listings sequences whose order is given.
 */
module SelectStimuli {
  import opened Wrappers
  import opened Paths

  /** The files and the directories under the stimulus directory, as relative paths. */
  datatype Tree = Tree(files: set<string>, dirs: set<string>)

  /** A recording session: its training stories and its test story. */
  datatype Session = Session(train: seq<string>, test: string)

  datatype SelectError =
    | NoSuchDirectory(dir: string)        // the stimulus directory does not exist
    | NotADirectory(dir: string)          // it exists but is not a directory
    | NoSessions                          // neither stories nor sessions were given
    | UnknownSession(session: string)     // a session missing from the session table
    | MissingStimuli(stories: set<string>) // stories with neither a .flac nor a .wav file

  // ---------------------------------------------------------------- bucket mode

  /** `story` is the test story or one of the training stories of session `s`. */
  predicate InSession(table: map<string, Session>, s: string, story: string)
  {
    s in table && (story == table[s].test || story in table[s].train)
  }

  /** Index i holds the first session of `ss` that the table does not know. */
  predicate FirstUnknown(ss: seq<string>, table: map<string, Session>, i: int)
  {
    0 <= i < |ss| && ss[i] !in table && forall j :: 0 <= j < i ==> ss[j] in table
  }

  /** The session table knows every session of `ss`. */
  predicate AllKnown(ss: seq<string>, table: map<string, Session>)
  {
    forall i :: 0 <= i < |ss| ==> ss[i] in table
  }

  /** `story` belongs to one of the sessions `ss`. */
  predicate SessionStory(table: map<string, Session>, ss: seq<string>, story: string)
  {
    exists i :: 0 <= i < |ss| && InSession(table, ss[i], story)
  }

  /** `story` is asked for: one of the given stories, or else a story of a given session. */
  predicate Wanted(stories: Option<seq<string>>, sessions: Option<seq<string>>, table: map<string, Session>, story: string)
  {
    if stories.Some? then story in stories.value else sessions.Some? && SessionStory(table, sessions.value, story)
  }

  /**
   * The story set of `_select_from_bucket`: the given stories as a set, else the union
   * over the given sessions of each one's test and training stories.
   */
  method CollectStories(stories: Option<seq<string>>, sessions: Option<seq<string>>, table: map<string, Session>)
    returns (r: Result<set<string>, SelectError>)
    ensures stories.Some? ==> r == Success(set st | st in stories.value)
    ensures stories.None? && sessions.None? ==> r == Failure(NoSessions)
    ensures stories.None? && sessions.Some? ==> (r.Success? <==> AllKnown(sessions.value, table))
    ensures stories.None? && sessions.Some? && r.Failure? ==>
      exists i :: FirstUnknown(sessions.value, table, i) && r.error == UnknownSession(sessions.value[i])
    ensures stories.None? && sessions.Some? && r.Success? ==>
      forall st :: st in r.value <==> SessionStory(table, sessions.value, st)
  {
    if stories.Some? {
      return Success(set st | st in stories.value);
    }
    if sessions.None? {
      return Failure(NoSessions);
    }
    var ss := sessions.value;
    var acc: set<string> := {};
    for i := 0 to |ss|
      invariant forall j :: 0 <= j < i ==> ss[j] in table
      invariant forall st :: st in acc <==> exists j :: 0 <= j < i && InSession(table, ss[j], st)
    {
      if ss[i] !in table {
        assert FirstUnknown(ss, table, i);
        return Failure(UnknownSession(ss[i]));
      }
      var session := table[ss[i]];
      ghost var before := acc;
      acc := acc + {session.test};
      for k := 0 to |session.train|
        invariant acc == before + {session.test} + set t | t in session.train[..k]
      {
        assert session.train[..k + 1] == session.train[..k] + [session.train[k]];
        acc := acc + {session.train[k]};
      }
      assert session.train[..|session.train|] == session.train;
      forall st
        ensures st in acc <==> exists j :: 0 <= j < i + 1 && InSession(table, ss[j], st)
      {
        if InSession(table, ss[i], st) {
          assert st in acc;
        }
        if st in acc && st !in before {
          assert InSession(table, ss[i], st);
        }
      }
    }
    r := Success(acc);
  }

  /** The extensions looked for, in order of preference. */
  const Extensions: seq<string> := ["flac", "wav"]

  /** The file name `<story>.<ext>`. */
  function FileName(story: string, ext: string): string
  {
    story + "." + ext
  }

  /** The file a story is read from: "<story>.flac" if that file exists, else "<story>.wav". */
  function Preferred(tree: Tree, story: string): (r: Option<string>)
    ensures r.Some? ==> r.value in tree.files
    ensures FileName(story, "flac") in tree.files ==> r == Some(FileName(story, "flac"))
    ensures FileName(story, "flac") !in tree.files ==>
      r == if FileName(story, "wav") in tree.files then Some(FileName(story, "wav")) else None
  {
    if FileName(story, Extensions[0]) in tree.files then Some(FileName(story, Extensions[0]))
    else if FileName(story, Extensions[1]) in tree.files then Some(FileName(story, Extensions[1]))
    else None
  }

  /**
   * The lookup loop of `_select_from_bucket`: every story maps to its preferred file
   * under the stimulus directory, and if any story has none, the error names all of
   * them at once.
   */
  method LocateStories(stimDir: string, tree: Tree, stories: set<string>)
    returns (r: Result<map<string, string>, SelectError>)
    ensures r.Success? <==> forall st :: st in stories ==> Preferred(tree, st).Some?
    ensures r.Success? ==> r.value.Keys == stories
    ensures r.Success? ==> forall st :: st in r.value ==>
      Preferred(tree, st).Some? && r.value[st] == Join(stimDir, Preferred(tree, st).value)
    ensures r.Failure? ==> r.error == MissingStimuli(set st | st in stories && Preferred(tree, st).None?)
  {
    var paths: map<string, string> := map[];
    var todo := stories;
    while todo != {}
      invariant todo <= stories
      invariant forall st :: st in paths <==> st in stories && st !in todo && Preferred(tree, st).Some?
      invariant forall st :: st in paths ==> Preferred(tree, st).Some? && paths[st] == Join(stimDir, Preferred(tree, st).value)
      decreases todo
    {
      var story :| story in todo;
      ghost var before := paths;
      for k := 0 to |Extensions|
        invariant forall j :: 0 <= j < k ==> FileName(story, Extensions[j]) !in tree.files
        invariant paths == before
      {
        var candidate := story + "." + Extensions[k];
        if candidate in tree.files {
          paths := paths[story := Join(stimDir, candidate)];
          break;
        }
      }
      todo := todo - {story};
    }
    var missing := stories - paths.Keys;
    if |missing| > 0 {
      assert missing == set st | st in stories && Preferred(tree, st).None?;
      return Failure(MissingStimuli(missing));
    }
    assert forall st :: st in stories ==> st in paths;
    r := Success(paths);
  }

  /**
   * What `_select_from_bucket` promises. Neither stories nor sessions is an error, and so
   * is an unknown session, named by the first one. Once the stories asked for are known,
   * the selection succeeds iff each has a file: then the keys are exactly those stories,
   * else the error names every story without a file. Each value is the story's preferred
   * file under the stimulus directory.
   */
  ghost predicate BucketSelected(stimDir: string, tree: Tree, sessions: Option<seq<string>>, stories: Option<seq<string>>,
                                 table: map<string, Session>, r: Result<map<string, string>, SelectError>)
  {
    && (stories.None? && sessions.None? ==> r == Failure(NoSessions))
    && (stories.None? && sessions.Some? && !AllKnown(sessions.value, table) ==>
          exists i :: FirstUnknown(sessions.value, table, i) && r == Failure(UnknownSession(sessions.value[i])))
    && (stories.Some? || (sessions.Some? && AllKnown(sessions.value, table)) ==>
          && (r.Success? <==> forall st :: Wanted(stories, sessions, table, st) ==> Preferred(tree, st).Some?)
          && (r.Success? ==> forall st :: st in r.value <==> Wanted(stories, sessions, table, st))
          && (r.Failure? ==>
                && r.error.MissingStimuli?
                && forall st :: st in r.error.stories <==> Wanted(stories, sessions, table, st) && Preferred(tree, st).None?))
    && (r.Success? ==> forall st :: st in r.value ==>
          Preferred(tree, st).Some? && r.value[st] == Join(stimDir, Preferred(tree, st).value))
  }

  /** `_select_from_bucket`: the story set, then the lookup. */
  method SelectFromBucket(stimDir: string, tree: Tree, sessions: Option<seq<string>>, stories: Option<seq<string>>,
                          table: map<string, Session>)
    returns (r: Result<map<string, string>, SelectError>)
    ensures BucketSelected(stimDir, tree, sessions, stories, table, r)
  {
    var wanted := CollectStories(stories, sessions, table);
    if wanted.Failure? {
      return Failure(wanted.error);
    }
    assert forall st :: st in wanted.value <==> Wanted(stories, sessions, table, st);
    r := LocateStories(stimDir, tree, wanted.value);
  }

  // ---------------------------------------------------------------- directory mode

  /**
   * `glob('*.<ext>')` (top level only) or `rglob('*.<ext>')` (any depth) under the
   * stimulus directory yields the entry `rel`, a file or a directory.
   */
  predicate Globbed(tree: Tree, recursive: bool, ext: string, rel: string)
    ensures Globbed(tree, recursive, ext, rel) ==>
              |rel| > |ext| && rel[|rel| - |ext| - 1] == '.' && rel[|rel| - |ext|..] == ext
  {
    (rel in tree.files || rel in tree.dirs) && EndsWith(rel, "." + ext) && (recursive || '/' !in rel)
  }

  /**
   * `with_suffix('')` on a relative path: the suffix of the final component starts at
   * its last dot, provided that dot is neither its first nor its last character.
   */
  function StemOf(rel: string): (r: string)
    ensures |r| <= |rel| && r == rel[..|r|]
    ensures r != rel ==>
              && LastIndexOf(rel, '/') + 1 < |r| < |rel| - 1
              && LastIndexOf(rel, '.') == |r|
  {
    var sep := LastIndexOf(rel, '/');
    var dot := LastIndexOf(rel, '.');
    if sep + 1 < dot < |rel| - 1 then rel[..dot] else rel
  }

  /** In "<name>.<ext>" with a dot-free extension, the last dot is the one before it. */
  lemma LastDotBeforeExtension(rel: string, ext: string)
    requires '.' !in ext && EndsWith(rel, "." + ext)
    ensures LastIndexOf(rel, '.') == |rel| - |ext| - 1
  {
    var d := |rel| - |ext| - 1;
    var tail := rel[d..];
    assert tail == "." + ext;
    assert rel[d] == tail[0] == '.';
    forall i | d < i < |rel|
      ensures rel[i] != '.'
    {
      assert rel[i] == tail[i - d];
      assert tail[i - d] == ext[i - d - 1];
    }
  }

  /** A globbed "<name>.<ext>" whose final component is longer than ".<ext>" is named "<name>". */
  lemma StemOfGlobbed(rel: string, ext: string)
    requires ext != [] && '.' !in ext
    requires EndsWith(rel, "." + ext)
    requires LastIndexOf(rel, '/') + 1 < |rel| - |ext| - 1
    ensures StemOf(rel) == rel[..|rel| - |ext| - 1]
  {
    LastDotBeforeExtension(rel, ext);
  }

  /** A globbed entry whose final component is only ".<ext>" has no suffix to remove. */
  lemma StemOfDotName(rel: string, ext: string)
    requires ext != [] && '.' !in ext
    requires EndsWith(rel, "." + ext)
    requires LastIndexOf(rel, '/') + 1 == |rel| - |ext| - 1
    ensures StemOf(rel) == rel
  {
    LastDotBeforeExtension(rel, ext);
  }

  /** Among the first n entries of `listing`, index i holds the last one named k. */
  predicate LastNamed(listing: seq<string>, n: int, k: string, i: int)
  {
    0 <= i < n <= |listing| && StemOf(listing[i]) == k &&
    forall j :: i < j < n ==> StemOf(listing[j]) != k
  }

  lemma LastNamedStep(listing: seq<string>, n: int, k: string, i: int)
    requires LastNamed(listing, n, k, i) && n < |listing| && StemOf(listing[n]) != k
    ensures LastNamed(listing, n + 1, k, i)
  {
  }

  /**
   * What `_select_from_dir` promises for the listings `wavs` and `flacs`: the keys are
   * exactly the names of the globbed entries; each maps to the last listed entry of that
   * name; a .flac entry beats a .wav entry of the same name; without recursion every
   * key is a top-level name.
   */
  ghost predicate DirSelected(stimDir: string, tree: Tree, recursive: bool, wavs: seq<string>, flacs: seq<string>,
                              paths: map<string, string>)
  {
    && (forall k :: k in paths <==>
          exists p :: (Globbed(tree, recursive, "wav", p) || Globbed(tree, recursive, "flac", p)) && StemOf(p) == k)
    && (forall k :: k in paths ==>
          exists i :: LastNamed(wavs + flacs, |wavs + flacs|, k, i) && paths[k] == Join(stimDir, (wavs + flacs)[i]))
    && (forall p :: p in flacs ==>
          StemOf(p) in paths && exists q :: q in flacs && StemOf(q) == StemOf(p) && paths[StemOf(p)] == Join(stimDir, q))
    && (!recursive ==> forall k :: k in paths ==> '/' !in k)
  }

  /**
   * `_select_from_dir`: the .wav matches, then the .flac matches, each stored under its
   * name (relative path without suffix); a later entry overwrites an earlier one, so
   * every name maps to its last entry and a .flac beats a .wav of the same name.
   */
  method SelectFromDir(stimDir: string, tree: Tree, recursive: bool, wavs: seq<string>, flacs: seq<string>)
    returns (paths: map<string, string>)
    requires forall p :: p in wavs <==> Globbed(tree, recursive, "wav", p)
    requires forall p :: p in flacs <==> Globbed(tree, recursive, "flac", p)
    ensures DirSelected(stimDir, tree, recursive, wavs, flacs, paths)
  {
    var listing := wavs + flacs;
    paths := map[];
    for i := 0 to |listing|
      invariant forall j :: 0 <= j < i ==> StemOf(listing[j]) in paths
      invariant forall k :: k in paths ==>
        exists j :: LastNamed(listing, i, k, j) && paths[k] == Join(stimDir, listing[j])
    {
      var name := StemOf(listing[i]);
      ghost var before := paths;
      paths := paths[name := Join(stimDir, listing[i])];
      forall k | k in paths
        ensures exists j :: LastNamed(listing, i + 1, k, j) && paths[k] == Join(stimDir, listing[j])
      {
        if k == name {
          assert LastNamed(listing, i + 1, k, i);
        } else {
          var j :| LastNamed(listing, i, k, j) && before[k] == Join(stimDir, listing[j]);
          LastNamedStep(listing, i, k, j);
        }
      }
    }
    DirSelection(stimDir, tree, recursive, wavs, flacs, paths);
  }

  /** What the overwrite rule gives, stated about the glob matches. */
  lemma DirSelection(stimDir: string, tree: Tree, recursive: bool, wavs: seq<string>, flacs: seq<string>,
                     paths: map<string, string>)
    requires forall p :: p in wavs <==> Globbed(tree, recursive, "wav", p)
    requires forall p :: p in flacs <==> Globbed(tree, recursive, "flac", p)
    requires forall j :: 0 <= j < |wavs + flacs| ==> StemOf((wavs + flacs)[j]) in paths
    requires forall k :: k in paths ==>
      exists i :: LastNamed(wavs + flacs, |wavs + flacs|, k, i) && paths[k] == Join(stimDir, (wavs + flacs)[i])
    ensures forall k :: k in paths <==>
      exists p :: (Globbed(tree, recursive, "wav", p) || Globbed(tree, recursive, "flac", p)) && StemOf(p) == k
    ensures forall p :: p in flacs ==>
      exists q :: q in flacs && StemOf(q) == StemOf(p) && paths[StemOf(p)] == Join(stimDir, q)
    ensures !recursive ==> forall k :: k in paths ==> '/' !in k
  {
    DirKeys(stimDir, tree, recursive, wavs, flacs, paths);
    DirFlacWins(stimDir, wavs, flacs, paths);
    if !recursive {
      DirTopLevel(stimDir, tree, wavs, flacs, paths);
    }
  }

  lemma DirKeys(stimDir: string, tree: Tree, recursive: bool, wavs: seq<string>, flacs: seq<string>,
                paths: map<string, string>)
    requires forall p :: p in wavs <==> Globbed(tree, recursive, "wav", p)
    requires forall p :: p in flacs <==> Globbed(tree, recursive, "flac", p)
    requires forall j :: 0 <= j < |wavs + flacs| ==> StemOf((wavs + flacs)[j]) in paths
    requires forall k :: k in paths ==>
      exists i :: LastNamed(wavs + flacs, |wavs + flacs|, k, i) && paths[k] == Join(stimDir, (wavs + flacs)[i])
    ensures forall k :: k in paths <==>
      exists p :: (Globbed(tree, recursive, "wav", p) || Globbed(tree, recursive, "flac", p)) && StemOf(p) == k
  {
    var listing := wavs + flacs;
    forall k
      ensures k in paths <==>
        exists p :: (Globbed(tree, recursive, "wav", p) || Globbed(tree, recursive, "flac", p)) && StemOf(p) == k
    {
      if k in paths {
        var j :| LastNamed(listing, |listing|, k, j) && paths[k] == Join(stimDir, listing[j]);
      }
      ListedNames(tree, recursive, wavs, flacs, k);
    }
  }

  lemma DirFlacWins(stimDir: string, wavs: seq<string>, flacs: seq<string>, paths: map<string, string>)
    requires forall j :: 0 <= j < |wavs + flacs| ==> StemOf((wavs + flacs)[j]) in paths
    requires forall k :: k in paths ==>
      exists i :: LastNamed(wavs + flacs, |wavs + flacs|, k, i) && paths[k] == Join(stimDir, (wavs + flacs)[i])
    ensures forall p :: p in flacs ==>
      StemOf(p) in paths && exists q :: q in flacs && StemOf(q) == StemOf(p) && paths[StemOf(p)] == Join(stimDir, q)
  {
    var listing := wavs + flacs;
    forall p | p in flacs
      ensures StemOf(p) in paths && exists q :: q in flacs && StemOf(q) == StemOf(p) && paths[StemOf(p)] == Join(stimDir, q)
    {
      var f :| 0 <= f < |flacs| && flacs[f] == p;
      assert listing[|wavs| + f] == p;
      assert StemOf(listing[|wavs| + f]) in paths;
      var j :| LastNamed(listing, |listing|, StemOf(p), j) && paths[StemOf(p)] == Join(stimDir, listing[j]);
      FlacIsLast(wavs, flacs, f, j);
    }
  }

  lemma DirTopLevel(stimDir: string, tree: Tree, wavs: seq<string>, flacs: seq<string>, paths: map<string, string>)
    requires forall p :: p in wavs <==> Globbed(tree, false, "wav", p)
    requires forall p :: p in flacs <==> Globbed(tree, false, "flac", p)
    requires forall k :: k in paths ==>
      exists i :: LastNamed(wavs + flacs, |wavs + flacs|, k, i) && paths[k] == Join(stimDir, (wavs + flacs)[i])
    ensures forall k :: k in paths ==> '/' !in k
  {
    var listing := wavs + flacs;
    forall k | k in paths
      ensures '/' !in k
    {
      var j :| LastNamed(listing, |listing|, k, j) && paths[k] == Join(stimDir, listing[j]);
      assert listing[j] in wavs || listing[j] in flacs;
      StemKeepsTopLevel(listing[j]);
    }
  }

  /** A listed entry's name is some globbed entry's. */
  lemma ListedIsGlobbed(tree: Tree, recursive: bool, wavs: seq<string>, flacs: seq<string>, j: int)
    requires forall p :: p in wavs <==> Globbed(tree, recursive, "wav", p)
    requires forall p :: p in flacs <==> Globbed(tree, recursive, "flac", p)
    requires 0 <= j < |wavs + flacs|
    ensures Globbed(tree, recursive, "wav", (wavs + flacs)[j]) || Globbed(tree, recursive, "flac", (wavs + flacs)[j])
  {
    var p := (wavs + flacs)[j];
    assert p in wavs || p in flacs;
  }

  /** A globbed entry is listed. */
  lemma GlobbedIsListed(tree: Tree, recursive: bool, wavs: seq<string>, flacs: seq<string>, p: string)
    requires forall p :: p in wavs <==> Globbed(tree, recursive, "wav", p)
    requires forall p :: p in flacs <==> Globbed(tree, recursive, "flac", p)
    requires Globbed(tree, recursive, "wav", p) || Globbed(tree, recursive, "flac", p)
    ensures exists j :: 0 <= j < |wavs + flacs| && (wavs + flacs)[j] == p
  {
    assert p in wavs + flacs;
  }

  /** A name is some listed entry's exactly when it is some globbed entry's. */
  lemma ListedNames(tree: Tree, recursive: bool, wavs: seq<string>, flacs: seq<string>, k: string)
    requires forall p :: p in wavs <==> Globbed(tree, recursive, "wav", p)
    requires forall p :: p in flacs <==> Globbed(tree, recursive, "flac", p)
    ensures (exists j :: 0 <= j < |wavs + flacs| && StemOf((wavs + flacs)[j]) == k) <==>
      exists p :: (Globbed(tree, recursive, "wav", p) || Globbed(tree, recursive, "flac", p)) && StemOf(p) == k
  {
    var listing := wavs + flacs;
    if exists j :: 0 <= j < |listing| && StemOf(listing[j]) == k {
      var j :| 0 <= j < |listing| && StemOf(listing[j]) == k;
      ListedIsGlobbed(tree, recursive, wavs, flacs, j);
      var p := listing[j];
      assert (Globbed(tree, recursive, "wav", p) || Globbed(tree, recursive, "flac", p)) && StemOf(p) == k;
    }
    if exists p :: (Globbed(tree, recursive, "wav", p) || Globbed(tree, recursive, "flac", p)) && StemOf(p) == k {
      var p :| (Globbed(tree, recursive, "wav", p) || Globbed(tree, recursive, "flac", p)) && StemOf(p) == k;
      GlobbedIsListed(tree, recursive, wavs, flacs, p);
      var j :| 0 <= j < |listing| && listing[j] == p;
      assert StemOf(listing[j]) == k;
    }
  }

  /** The last entry named like a .flac entry comes from the .flac part of the listing. */
  lemma FlacIsLast(wavs: seq<string>, flacs: seq<string>, f: int, j: int)
    requires 0 <= f < |flacs|
    requires LastNamed(wavs + flacs, |wavs + flacs|, StemOf(flacs[f]), j)
    ensures |wavs| <= j && (wavs + flacs)[j] == flacs[j - |wavs|]
  {
    var listing := wavs + flacs;
    assert listing[|wavs| + f] == flacs[f];
  }

  /** A top-level entry's name is top-level too. */
  lemma StemKeepsTopLevel(rel: string)
    requires '/' !in rel
    ensures '/' !in StemOf(rel)
  {
    var k := StemOf(rel);
    assert k == rel[..|k|];
  }

  // ---------------------------------------------------------------- entry point

  /**
   * `select_stimuli`: the stimulus directory must exist and be a directory; then bucket
   * mode (a bucket name was given) selects by story, directory mode by listing.
   */
  method Select(stimDir: string, dirExists: bool, isDir: bool, fromBucket: bool, tree: Tree,
                sessions: Option<seq<string>>, stories: Option<seq<string>>, table: map<string, Session>,
                recursive: bool, wavs: seq<string>, flacs: seq<string>)
    returns (r: Result<map<string, string>, SelectError>)
    requires forall p :: p in wavs <==> Globbed(tree, recursive, "wav", p)
    requires forall p :: p in flacs <==> Globbed(tree, recursive, "flac", p)
    ensures !dirExists ==> r == Failure(NoSuchDirectory(stimDir))
    ensures dirExists && !isDir ==> r == Failure(NotADirectory(stimDir))
    ensures dirExists && isDir && fromBucket ==> BucketSelected(stimDir, tree, sessions, stories, table, r)
    ensures dirExists && isDir && !fromBucket ==> r.Success? && DirSelected(stimDir, tree, recursive, wavs, flacs, r.value)
  {
    if !dirExists {
      return Failure(NoSuchDirectory(stimDir));
    }
    if !isDir {
      return Failure(NotADirectory(stimDir));
    }
    if fromBucket {
      r := SelectFromBucket(stimDir, tree, sessions, stories, table);
    } else {
      var paths := SelectFromDir(stimDir, tree, recursive, wavs, flacs);
      r := Success(paths);
    }
  }
}
