/** The upload planner: the per-file decision of `main`, the directory walk, the
    single-file mode and the dispatch between them. Network calls are not made;
    each one is recorded as an `Action`, in the order the program would make it. */
module Planner {
  import opened Wrappers
  import opened Text
  import opened Paths
  import opened Headers
  import opened Tree

  /** The settings `main` has after option parsing. `grant` is the canned ACL passed as
      `policy`; `sep` is `os.sep`; `prefix` is the already normalised prefix. */
  datatype Config = Config(
    bucket: string,
    prefix: string,
    ignore: seq<string>,
    noOverwrite: bool,
    noOp: bool,
    quiet: bool,
    grant: Option<string>,
    sep: char)

  /** What the program learns from outside: the names of the keys already in the bucket,
      the date text of "two years from now", and the system's extension-to-type table. */
  datatype Env = Env(
    existing: seq<string>,
    expires: string,
    mimeTable: string -> Option<string>)

  /** One observable step of a run. */
  datatype Action =
    | GettingKeys                                   // "Getting list of existing keys to check against"
    | Skipping(name: string)                        // "Skipping %s as it exists in s3"
    | Copying(name: string, bucket: string, key: string)  // "Copying %s to %s/%s"
    | GzipNotice(source: string)                    // "\tgzipped: %dk to %dk", sizes not modelled
    | PutCompressed(key: string, source: string, headers: HeaderMap)   // set_contents_from_string of the gzipped file
    | PutFile(key: string, source: string, headers: HeaderMap, policy: Option<string>)  // set_contents_from_filename
    | MakePublic(key: string)

  predicate IsWrite(a: Action)
  {
    a.PutCompressed? || a.PutFile? || a.MakePublic?
  }

  /** The line a file's decision prints: skipped, or copied. */
  predicate IsDecision(a: Action)
  {
    a.Skipping? || a.Copying?
  }

  /** The key a candidate is stored under in directory mode. */
  function KeyOf(cfg: Config, c: Candidate): string
  {
    GetKeyName(c.fullpath, cfg.prefix, cfg.sep)
  }

  /** `no_overwrite` is set and the key is in the pre-fetched list. */
  predicate Skipped(cfg: Config, env: Env, key: string)
  {
    cfg.noOverwrite && key in env.existing
  }

  /** Writing one object: gzip-eligible files are compressed, announced with the
      `gzipped` line (printed even in quiet mode), get the content headers and are made
      public; every other file is streamed with the configured grant. */
  function Upload(cfg: Config, env: Env, fullpath: string, key: string): seq<Action>
  {
    var headers := GetHeaders(fullpath, env.expires);
    if HasGzipExtension(fullpath) then
      [GzipNotice(fullpath),
       PutCompressed(key, fullpath, GzipHeaders(headers, GuessMimeType(fullpath, env.mimeTable))),
       MakePublic(key)]
    else
      [PutFile(key, fullpath, headers, cfg.grant)]
  }

  /** One iteration of the loop over `files` in directory mode. */
  function FilePlan(cfg: Config, env: Env, c: Candidate): seq<Action>
  {
    var key := KeyOf(cfg, c);
    if Skipped(cfg, env, key) then
      (if cfg.quiet then [] else [Skipping(c.name)])
    else
      (if cfg.quiet then [] else [Copying(c.name, cfg.bucket, key)]) +
      (if cfg.noOp then [] else Upload(cfg, env, c.fullpath, key))
  }

  /** The loop body run for each candidate in turn. */
  function PlanFiles(cfg: Config, env: Env, cs: seq<Candidate>): seq<Action>
  {
    if cs == [] then [] else FilePlan(cfg, env, cs[0]) + PlanFiles(cfg, env, cs[1..])
  }

  lemma {:induction false} PlanFilesConcat(cfg: Config, env: Env, a: seq<Candidate>, b: seq<Candidate>)
    ensures PlanFiles(cfg, env, a + b) == PlanFiles(cfg, env, a) + PlanFiles(cfg, env, b)
  {
    if a == [] {
      assert a + b == b;
    } else {
      assert (a + b)[0] == a[0];
      assert (a + b)[1..] == a[1..] + b;
      PlanFilesConcat(cfg, env, a[1..], b);
    }
  }

  lemma PlanFilesSnoc(cfg: Config, env: Env, cs: seq<Candidate>, c: Candidate)
    ensures PlanFiles(cfg, env, cs + [c]) == PlanFiles(cfg, env, cs) + FilePlan(cfg, env, c)
  {
    PlanFilesConcat(cfg, env, cs, [c]);
    assert [c][1..] == [];
  }

  // ----- Summaries of a plan -----

  /** The decision lines a plan prints, in order. */
  function Decisions(p: seq<Action>): (r: seq<Action>)
    ensures forall a :: a in r ==> IsDecision(a) && a in p
    ensures forall a :: a in p && IsDecision(a) ==> a in r
  {
    if p == [] then [] else (if IsDecision(p[0]) then [p[0]] else []) + Decisions(p[1..])
  }

  /** The keys a plan writes an object to. */
  function WrittenKeys(p: seq<Action>): set<string>
  {
    if p == [] then {}
    else (if p[0].PutCompressed? || p[0].PutFile? then {p[0].key} else {}) + WrittenKeys(p[1..])
  }

  lemma {:induction false} DecisionsConcat(a: seq<Action>, b: seq<Action>)
    ensures Decisions(a + b) == Decisions(a) + Decisions(b)
  {
    if a == [] {
      assert a + b == b;
    } else {
      assert (a + b)[0] == a[0];
      assert (a + b)[1..] == a[1..] + b;
      DecisionsConcat(a[1..], b);
    }
  }

  lemma {:induction false} WrittenKeysConcat(a: seq<Action>, b: seq<Action>)
    ensures WrittenKeys(a + b) == WrittenKeys(a) + WrittenKeys(b)
  {
    if a == [] {
      assert a + b == b;
    } else {
      assert (a + b)[0] == a[0];
      assert (a + b)[1..] == a[1..] + b;
      WrittenKeysConcat(a[1..], b);
    }
  }

  /** Reference definition of what a directory run stores: the key of every candidate
      that is not skipped, unless it is a dry run. */
  function UploadedKeys(cfg: Config, env: Env, cs: seq<Candidate>): set<string>
  {
    set c | c in cs && !cfg.noOp && !Skipped(cfg, env, KeyOf(cfg, c)) :: KeyOf(cfg, c)
  }

  // ----- Properties of one decision -----

  /** An upload writes exactly its key, from the file at `fullpath`, and ends with a
      write; it prints no decision line, and prints the `gzipped` line exactly when the
      file is gzip-eligible. */
  lemma UploadWritesKey(cfg: Config, env: Env, fullpath: string, key: string)
    ensures var up := Upload(cfg, env, fullpath, key);
      WrittenKeys(up) == {key} && Decisions(up) == [] && up != [] && IsWrite(up[|up| - 1])
    ensures var up := Upload(cfg, env, fullpath, key);
      forall a :: a in up && (a.PutCompressed? || a.PutFile?) ==> a.source == fullpath
    ensures GzipNotice(fullpath) in Upload(cfg, env, fullpath, key) <==> HasGzipExtension(fullpath)
  {
    var headers := GetHeaders(fullpath, env.expires);
    if HasGzipExtension(fullpath) {
      var h := GzipHeaders(headers, GuessMimeType(fullpath, env.mimeTable));
      assert Upload(cfg, env, fullpath, key) == [GzipNotice(fullpath), PutCompressed(key, fullpath, h), MakePublic(key)];
      CompressedSummaries(fullpath, key, h);
    } else {
      assert Upload(cfg, env, fullpath, key) == [PutFile(key, fullpath, headers, cfg.grant)];
      SummariesOfOne(PutFile(key, fullpath, headers, cfg.grant));
    }
  }

  /** The `gzipped` line, the compressed put and the publication write one key and
      print no decision line. */
  lemma CompressedSummaries(path: string, key: string, h: HeaderMap)
    ensures var up := [GzipNotice(path), PutCompressed(key, path, h), MakePublic(key)];
      WrittenKeys(up) == {key} && Decisions(up) == []
  {
    var up := [GzipNotice(path), PutCompressed(key, path, h), MakePublic(key)];
    var tail := up[1..];
    assert tail == [PutCompressed(key, path, h), MakePublic(key)];
    assert tail[1..] == [MakePublic(key)] && tail[1..][1..] == [];
    assert WrittenKeys(tail[1..]) == {} && Decisions(tail[1..]) == [];
  }

  lemma SummariesOfOne(a: Action)
    ensures WrittenKeys([a]) == (if a.PutCompressed? || a.PutFile? then {a.key} else {})
    ensures Decisions([a]) == (if IsDecision(a) then [a] else [])
  {
    assert [a][1..] == [];
  }

  /** A plan made of decision lines only: it prints all of itself and writes nothing. */
  lemma DecisionsOnly(p: seq<Action>)
    requires forall i :: 0 <= i < |p| ==> IsDecision(p[i])
    ensures Decisions(p) == p && WrittenKeys(p) == {}
  {
    if p != [] {
      DecisionsOnly(p[1..]);
    }
  }

  /** Each file gets exactly one decision line (when not quiet), and it writes exactly
      its own key unless it is skipped or the run is a dry run. */
  lemma FileDecision(cfg: Config, env: Env, c: Candidate)
    ensures var key := KeyOf(cfg, c);
      WrittenKeys(FilePlan(cfg, env, c)) == (if !cfg.noOp && !Skipped(cfg, env, key) then {key} else {})
    ensures var key := KeyOf(cfg, c);
      Decisions(FilePlan(cfg, env, c)) ==
        if cfg.quiet then []
        else if Skipped(cfg, env, key) then [Skipping(c.name)]
        else [Copying(c.name, cfg.bucket, key)]
    ensures (exists a :: a in FilePlan(cfg, env, c) && IsWrite(a)) <==> !cfg.noOp && !Skipped(cfg, env, KeyOf(cfg, c))
  {
    var key := KeyOf(cfg, c);
    var p := FilePlan(cfg, env, c);
    var report: seq<Action> := if cfg.quiet then [] else [Copying(c.name, cfg.bucket, key)];
    if Skipped(cfg, env, key) {
      var skip: seq<Action> := if cfg.quiet then [] else [Skipping(c.name)];
      assert p == skip;
      DecisionsOnly(skip);
    } else if cfg.noOp {
      assert p == report;
      DecisionsOnly(report);
    } else {
      FileUploaded(cfg, env, c);
    }
  }

  /** The upload branch of one decision: the Copying line, then the upload. */
  lemma FileUploaded(cfg: Config, env: Env, c: Candidate)
    requires !cfg.noOp && !Skipped(cfg, env, KeyOf(cfg, c))
    ensures var p := FilePlan(cfg, env, c);
      WrittenKeys(p) == {KeyOf(cfg, c)} &&
      Decisions(p) == (if cfg.quiet then [] else [Copying(c.name, cfg.bucket, KeyOf(cfg, c))]) &&
      exists a :: a in p && IsWrite(a)
  {
    var key := KeyOf(cfg, c);
    var report: seq<Action> := if cfg.quiet then [] else [Copying(c.name, cfg.bucket, key)];
    var up := Upload(cfg, env, c.fullpath, key);
    assert FilePlan(cfg, env, c) == report + up;
    UploadWritesKey(cfg, env, c.fullpath, key);
    ReportThenUpload(report, up, key);
  }

  /** Decision lines followed by an upload of `key`: the lines are printed as they are
      and only `key` is written. */
  lemma ReportThenUpload(report: seq<Action>, up: seq<Action>, key: string)
    requires forall i :: 0 <= i < |report| ==> IsDecision(report[i])
    requires WrittenKeys(up) == {key} && Decisions(up) == [] && up != [] && IsWrite(up[|up| - 1])
    ensures WrittenKeys(report + up) == {key} && Decisions(report + up) == report
    ensures exists a :: a in report + up && IsWrite(a)
  {
    DecisionsOnly(report);
    DecisionsConcat(report, up);
    WrittenKeysConcat(report, up);
    assert (report + up)[|report + up| - 1] == up[|up| - 1];
  }

  // ----- Properties of a directory run -----

  /** A dry run writes nothing and prints nothing but decision lines. */
  lemma {:induction false} DryRunWritesNothing(cfg: Config, env: Env, cs: seq<Candidate>)
    requires cfg.noOp
    ensures forall a :: a in PlanFiles(cfg, env, cs) ==> !IsWrite(a) && IsDecision(a)
  {
    if cs != [] {
      DryRunWritesNothing(cfg, env, cs[1..]);
    }
  }

  /** A dry run prints exactly the decision lines the real run prints, in the same
      order, and nothing else. */
  lemma {:induction false} DryRunPrintsRealDecisions(cfg: Config, env: Env, cs: seq<Candidate>)
    ensures PlanFiles(cfg.(noOp := true), env, cs) == Decisions(PlanFiles(cfg.(noOp := false), env, cs))
  {
    if cs != [] {
      var dry := cfg.(noOp := true);
      var wet := cfg.(noOp := false);
      DryRunPrintsRealDecisions(cfg, env, cs[1..]);
      DecisionsConcat(FilePlan(wet, env, cs[0]), PlanFiles(wet, env, cs[1..]));
      FileDecision(wet, env, cs[0]);
      assert Decisions(FilePlan(wet, env, cs[0])) == FilePlan(dry, env, cs[0]);
    }
  }

  /** Skip if and only if already present: the keys a run writes are exactly the keys of
      the candidates that are not skipped. */
  lemma {:induction false} WritesExactlyUnskipped(cfg: Config, env: Env, cs: seq<Candidate>)
    ensures WrittenKeys(PlanFiles(cfg, env, cs)) == UploadedKeys(cfg, env, cs)
  {
    if cs != [] {
      WritesExactlyUnskipped(cfg, env, cs[1..]);
      WrittenKeysConcat(FilePlan(cfg, env, cs[0]), PlanFiles(cfg, env, cs[1..]));
      FileDecision(cfg, env, cs[0]);
      UploadedKeysCons(cfg, env, cs);
    }
  }

  lemma UploadedKeysCons(cfg: Config, env: Env, cs: seq<Candidate>)
    requires cs != []
    ensures var key := KeyOf(cfg, cs[0]);
      UploadedKeys(cfg, env, cs) ==
        (if !cfg.noOp && !Skipped(cfg, env, key) then {key} else {}) + UploadedKeys(cfg, env, cs[1..])
  {
    assert forall c :: c in cs <==> c == cs[0] || c in cs[1..];
  }

  /** With `no_overwrite`, no key of the pre-fetched listing is written. */
  lemma NoOverwriteKeepsExisting(cfg: Config, env: Env, cs: seq<Candidate>)
    requires cfg.noOverwrite
    ensures forall k :: k in WrittenKeys(PlanFiles(cfg, env, cs)) ==> k !in env.existing
  {
    WritesExactlyUnskipped(cfg, env, cs);
  }

  /** Outside quiet mode, a run prints one decision line per considered file. */
  lemma {:induction false} OneDecisionPerFile(cfg: Config, env: Env, cs: seq<Candidate>)
    requires !cfg.quiet
    ensures |Decisions(PlanFiles(cfg, env, cs))| == |cs|
  {
    if cs != [] {
      OneDecisionPerFile(cfg, env, cs[1..]);
      DecisionsConcat(FilePlan(cfg, env, cs[0]), PlanFiles(cfg, env, cs[1..]));
      FileDecision(cfg, env, cs[0]);
    }
  }

  /** How objects are written: every compressed put is of a gzip-eligible file, comes
      right after the `gzipped` line for that file, carries the cache policy with the
      guessed `Content-Type` and `Content-Encoding: gzip` added and is followed at once by
      making that key public; every streamed put is of another file, carries the cache
      policy alone and the configured grant; nothing else is made public. */
  predicate WellShaped(cfg: Config, env: Env, p: seq<Action>)
  {
    && (forall i :: 0 <= i < |p| && p[i].PutCompressed? ==>
          HasGzipExtension(p[i].source) &&
          p[i].headers == GzipHeaders(GetHeaders(p[i].source, env.expires),
                                      GuessMimeType(p[i].source, env.mimeTable)) &&
          0 < i && p[i - 1] == GzipNotice(p[i].source) &&
          i + 1 < |p| && p[i + 1] == MakePublic(p[i].key))
    && (forall i :: 0 <= i < |p| && p[i].PutFile? ==>
          !HasGzipExtension(p[i].source) &&
          p[i].policy == cfg.grant &&
          p[i].headers == GetHeaders(p[i].source, env.expires))
    && (forall i :: 0 <= i < |p| && p[i].MakePublic? ==>
          0 < i && p[i - 1].PutCompressed? && p[i - 1].key == p[i].key)
  }

  /** In a well-shaped run, a compressed put carries the type the table found for its
      file, next to `Content-Encoding: gzip`. */
  lemma WellShapedCarriesType(cfg: Config, env: Env, p: seq<Action>, i: int)
    requires WellShaped(cfg, env, p) && 0 <= i < |p| && p[i].PutCompressed?
    requires TypeFound(GuessMimeType(p[i].source, env.mimeTable))
    ensures p[i].headers["Content-Type"] == GuessMimeType(p[i].source, env.mimeTable).value
    ensures p[i].headers["Content-Encoding"] == "gzip"
  {
  }

  lemma WellShapedConcat(cfg: Config, env: Env, a: seq<Action>, b: seq<Action>)
    requires WellShaped(cfg, env, a) && WellShaped(cfg, env, b)
    requires b != [] ==> !b[0].MakePublic?
    ensures WellShaped(cfg, env, a + b)
  {
    var p := a + b;
    forall i | 0 <= i < |p| && p[i].MakePublic?
      ensures 0 < i && p[i - 1].PutCompressed? && p[i - 1].key == p[i].key
    {
      if i >= |a| {
        assert p[i] == b[i - |a|];
      }
    }
    forall i | 0 <= i < |p| && p[i].PutCompressed?
      ensures 0 < i && p[i - 1] == GzipNotice(p[i].source)
    {
      if i >= |a| {
        assert p[i] == b[i - |a|];
      }
    }
  }

  lemma UploadWellShaped(cfg: Config, env: Env, fullpath: string, key: string)
    ensures WellShaped(cfg, env, Upload(cfg, env, fullpath, key))
    ensures !Upload(cfg, env, fullpath, key)[0].MakePublic?
  {
    var up := Upload(cfg, env, fullpath, key);
    if HasGzipExtension(fullpath) {
      GzipHeadersKeepCachePolicy(fullpath, env.expires, GuessMimeType(fullpath, env.mimeTable));
      assert |up| == 3 && up[0] == GzipNotice(fullpath) && up[2] == MakePublic(key);
    } else {
      assert |up| == 1;
    }
  }

  lemma FilePlanWellShaped(cfg: Config, env: Env, c: Candidate)
    ensures WellShaped(cfg, env, FilePlan(cfg, env, c))
    ensures FilePlan(cfg, env, c) != [] ==> !FilePlan(cfg, env, c)[0].MakePublic?
  {
    var key := KeyOf(cfg, c);
    if !Skipped(cfg, env, key) {
      var report: seq<Action> := if cfg.quiet then [] else [Copying(c.name, cfg.bucket, key)];
      if !cfg.noOp {
        UploadWellShaped(cfg, env, c.fullpath, key);
        WellShapedConcat(cfg, env, report, Upload(cfg, env, c.fullpath, key));
      } else {
        assert FilePlan(cfg, env, c) == report;
      }
    }
  }

  lemma {:induction false} PlanWellShaped(cfg: Config, env: Env, cs: seq<Candidate>)
    ensures WellShaped(cfg, env, PlanFiles(cfg, env, cs))
    ensures PlanFiles(cfg, env, cs) != [] ==> !PlanFiles(cfg, env, cs)[0].MakePublic?
  {
    if cs != [] {
      PlanWellShaped(cfg, env, cs[1..]);
      FilePlanWellShaped(cfg, env, cs[0]);
      WellShapedConcat(cfg, env, FilePlan(cfg, env, cs[0]), PlanFiles(cfg, env, cs[1..]));
    }
  }

  // ----- Worked examples -----

  /** `/src/assets/app.js` under prefix `/src/`: key `assets/app.js`, announced and compressed, with
      the long cache policy and `Content-Encoding: gzip`, then made public. */
  lemma AssetScenario(cfg: Config, env: Env)
    requires cfg.prefix == "/src/" && cfg.sep == '/'
    requires !cfg.noOverwrite && !cfg.noOp && !cfg.quiet
    ensures var p := FilePlan(cfg, env, Candidate("/src/assets/app.js", "app.js"));
      && |p| == 4
      && p[0] == Copying("app.js", cfg.bucket, "assets/app.js")
      && p[1] == GzipNotice("/src/assets/app.js")
      && p[2].PutCompressed? && p[2].key == "assets/app.js"
      && p[2].headers["Content-Encoding"] == "gzip"
      && p[2].headers["Cache-Control"] == "max-age 63072000"
      && p[2].headers["Expires"] == env.expires + " GMT"
      && (env.mimeTable("/src/assets/app.js") == Some("application/javascript") ==>
            p[2].headers["Content-Type"] == "application/javascript")
      && p[3] == MakePublic("assets/app.js")
  {
    var path := "/src/assets/app.js";
    AssetFacts();
    AssetKey(cfg);
    GzipHeadersKeepCachePolicy(path, env.expires, GuessMimeType(path, env.mimeTable));
  }

  lemma AssetFacts()
    ensures Contains("/src/assets/app.js", AssetsMarker)
    ensures HasGzipExtension("/src/assets/app.js") && !EndsWith("/src/assets/app.js", ".appcache")
  {
    AssetHasMarker();
    AssetIsGzipped();
  }

  lemma AssetHasMarker()
    ensures Contains("/src/assets/app.js", AssetsMarker)
  {
    assert "/src/assets/app.js" == "/src" + AssetsMarker + "app.js";
    ContainsInMiddle("/src", AssetsMarker, "app.js");
  }

  lemma AssetIsGzipped()
    ensures HasGzipExtension("/src/assets/app.js") && !EndsWith("/src/assets/app.js", ".appcache")
  {
    var path := "/src/assets/app.js";
    assert path[|path| - 3..] == ".js";
    assert EndsWith(path, GzipExtensions[1]);
  }

  lemma AssetKey(cfg: Config)
    requires cfg.prefix == "/src/" && cfg.sep == '/'
    ensures KeyOf(cfg, Candidate("/src/assets/app.js", "app.js")) == "assets/app.js"
  {
    assert "/src/assets/app.js" == "/src/" + "assets/app.js";
    KeyNameAfterPrefix("/src/" + "assets/app.js", "/src/", '/');
  }

  /** `/src/readme.txt` under the same prefix: key `readme.txt`, streamed with
      `must-revalidate` and the configured grant, never made public. */
  lemma ReadmeScenario(cfg: Config, env: Env)
    requires cfg.prefix == "/src/" && cfg.sep == '/'
    requires !cfg.noOverwrite && !cfg.noOp && !cfg.quiet
    ensures FilePlan(cfg, env, Candidate("/src/readme.txt", "readme.txt")) ==
      [Copying("readme.txt", cfg.bucket, "readme.txt"),
       PutFile("readme.txt", "/src/readme.txt", map["Cache-Control" := "must-revalidate"], cfg.grant)]
  {
    ReadmeFacts();
    ReadmeKey(cfg);
  }

  lemma ReadmeFacts()
    ensures !Contains("/src/readme.txt", AssetsMarker)
    ensures !HasGzipExtension("/src/readme.txt")
  {
    ContainsIffOccurs("/src/readme.txt", AssetsMarker);
    ReadmeHasNoMarker();
    ReadmeIsNotGzipped();
  }

  lemma ReadmeIsNotGzipped()
    ensures !HasGzipExtension("/src/readme.txt")
  {
    var path := "/src/readme.txt";
    TailDiffers(path, ".css", 1);
    TailDiffers(path, ".js", 0);
    TailDiffers(path, ".ttf", 2);
    TailDiffers(path, ".appcache", 0);
    TailDiffers(path, ".ico", 1);
    GzipExtensionsListed(path);
  }

  lemma ReadmeHasNoMarker()
    ensures forall i :: !OccursAt("/src/readme.txt", AssetsMarker, i)
  {
    var path := "/src/readme.txt";
    assert path[1..4] == "src" && path[5..11] == "readme";
    forall i | 0 <= i && i + |AssetsMarker| <= |path| ensures !OccursAt(path, AssetsMarker, i) {
      if i == 0 || i == 4 {
        assert path[i..i + 8][1] == path[i + 1] != AssetsMarker[1];
      } else {
        assert path[i..i + 8][0] == path[i] != AssetsMarker[0];
      }
    }
  }

  /** With `no_overwrite` and `readme.txt` already in the bucket, the file is skipped and
      nothing is written for it. */
  lemma ExistingKeyScenario(cfg: Config, env: Env)
    requires cfg.prefix == "/src/" && cfg.sep == '/'
    requires cfg.noOverwrite && !cfg.quiet && "readme.txt" in env.existing
    ensures FilePlan(cfg, env, Candidate("/src/readme.txt", "readme.txt")) == [Skipping("readme.txt")]
  {
    var c := Candidate("/src/readme.txt", "readme.txt");
    ReadmeKey(cfg);
    assert Skipped(cfg, env, KeyOf(cfg, c));
  }

  lemma ReadmeKey(cfg: Config)
    requires cfg.prefix == "/src/" && cfg.sep == '/'
    ensures KeyOf(cfg, Candidate("/src/readme.txt", "readme.txt")) == "readme.txt"
  {
    assert "/src/readme.txt" == "/src/" + "readme.txt";
    KeyNameAfterPrefix("/src/" + "readme.txt", "/src/", '/');
  }

  // ----- The loop of `main`, directory mode -----

  /** The write branch of the loop body, with the header dict updated in place. */
  method WriteObject(cfg: Config, env: Env, fullpath: string, key: string) returns (acts: seq<Action>)
    ensures acts == Upload(cfg, env, fullpath, key)
  {
    var headers := GetHeaders(fullpath, env.expires);
    var gzipped := IsGzip(fullpath);
    if gzipped {
      var contentType := GuessMimeType(fullpath, env.mimeTable);
      if contentType.Some? && contentType.value != [] {
        headers := headers["Content-Type" := contentType.value];
      }
      headers := headers["Content-Encoding" := "gzip"];
      acts := [GzipNotice(fullpath), PutCompressed(key, fullpath, headers), MakePublic(key)];
    } else {
      acts := [PutFile(key, fullpath, headers, cfg.grant)];
    }
  }

  /** The loop body for one file of directory `root`. */
  method HandleFile(cfg: Config, env: Env, root: string, file: string) returns (acts: seq<Action>)
    ensures acts == FilePlan(cfg, env, Candidate(PathJoin(root, file, cfg.sep), file))
  {
    var fullpath := PathJoin(root, file, cfg.sep);
    var keyName := GetKeyName(fullpath, cfg.prefix, cfg.sep);
    var copyFile := true;
    acts := [];
    if cfg.noOverwrite {
      if keyName in env.existing {
        copyFile := false;
        if !cfg.quiet {
          acts := acts + [Skipping(file)];
        }
      }
    }
    if copyFile {
      if !cfg.quiet {
        acts := acts + [Copying(file, cfg.bucket, keyName)];
      }
      if !cfg.noOp {
        var written := WriteObject(cfg, env, fullpath, keyName);
        acts := acts + written;
      }
    }
  }

  /** The loop over the files of one directory `root`. */
  method HandleFiles(cfg: Config, env: Env, root: string, files: seq<string>) returns (actions: seq<Action>, count: nat)
    ensures actions == PlanFiles(cfg, env, FilesIn(root, files, cfg.sep))
    ensures count == |files|
  {
    actions, count := [], 0;
    for i := 0 to |files|
      invariant actions == PlanFiles(cfg, env, FilesIn(root, files[..i], cfg.sep))
      invariant count == i
    {
      var file := files[i];
      var acts := HandleFile(cfg, env, root, file);
      FilesInSnoc(root, files, i, cfg.sep);
      PlanFilesSnoc(cfg, env, FilesIn(root, files[..i], cfg.sep), Candidate(PathJoin(root, file, cfg.sep), file));
      actions := actions + acts;
      count := count + 1;
    }
    assert files[..|files|] == files;
  }

  /** One step of `os.walk`: the first pending directory has its subdirectory list
      pruned and its files handled, and its remaining subdirectories are walked next.
      Together with what is left, the step does what the whole work list stood for. */
  method VisitNext(cfg: Config, env: Env, pending: seq<Pending>) returns (actions: seq<Action>, count: nat, next: seq<Pending>)
    requires pending != []
    ensures actions + PlanFiles(cfg, env, PendingConsidered(cfg.ignore, cfg.sep, next))
         == PlanFiles(cfg, env, PendingConsidered(cfg.ignore, cfg.sep, pending))
    ensures count + |PendingConsidered(cfg.ignore, cfg.sep, next)| == |PendingConsidered(cfg.ignore, cfg.sep, pending)|
    ensures PendingSize(next) < PendingSize(pending)
  {
    var root, dir := pending[0].root, pending[0].dir;
    var dirs := PruneDirs(dir.subdirs, cfg.ignore);
    actions, count := HandleFiles(cfg, env, root, dir.files);
    next := Children(root, dirs, cfg.sep) + pending[1..];
    WalkStep(cfg.ignore, cfg.sep, pending, dirs);
    PlanFilesConcat(cfg, env, FilesIn(root, dir.files, cfg.sep), PendingConsidered(cfg.ignore, cfg.sep, next));
  }

  /** Directory mode: walk `tree` (found at `path`) top-down, prune ignored
      subdirectories, and handle every remaining file; `total` counts every handled
      file, skipped ones included. */
  method PlanDirectory(cfg: Config, env: Env, path: string, tree: Dir) returns (actions: seq<Action>, total: nat)
    ensures actions == PlanFiles(cfg, env, Considered(cfg.ignore, cfg.sep, path, tree))
    ensures total == |Considered(cfg.ignore, cfg.sep, path, tree)|
  {
    actions, total := [], 0;
    var pending := [Pending(path, tree)];
    assert pending[1..] == [];
    ghost var all := Considered(cfg.ignore, cfg.sep, path, tree);
    assert PendingConsidered(cfg.ignore, cfg.sep, pending) == all;
    while pending != []
      invariant actions + PlanFiles(cfg, env, PendingConsidered(cfg.ignore, cfg.sep, pending)) == PlanFiles(cfg, env, all)
      invariant total + |PendingConsidered(cfg.ignore, cfg.sep, pending)| == |all|
      decreases PendingSize(pending)
    {
      var acts, count, next := VisitNext(cfg, env, pending);
      actions := actions + acts;
      total := total + count;
      pending := next;
    }
    assert actions + PlanFiles(cfg, env, []) == actions;
  }

  // ----- Single-file mode -----

  /** Single-file mode, with the headers and the gzip test taken from `path`: the key is
      the base name and existence is asked of the bucket directly. There is no "Copying"
      line and `no_op` is not consulted. */
  function SingleFilePlan(cfg: Config, env: Env, path: string): (p: seq<Action>)
    ensures Skipped(cfg, env, Basename(path, cfg.sep)) ==> p == (if cfg.quiet then [] else [Skipping(path)])
    ensures !Skipped(cfg, env, Basename(path, cfg.sep)) ==>
      WrittenKeys(p) == {Basename(path, cfg.sep)} && Decisions(p) == [] && WellShaped(cfg, env, p)
    ensures forall a :: a in p && (a.PutCompressed? || a.PutFile?) ==> a.source == path
    ensures GzipNotice(path) in p <==> !Skipped(cfg, env, Basename(path, cfg.sep)) && HasGzipExtension(path)
  {
    var key := Basename(path, cfg.sep);
    if Skipped(cfg, env, key) then
      (if cfg.quiet then [] else [Skipping(path)])
    else
      UploadWritesKey(cfg, env, path, key);
      UploadWellShaped(cfg, env, path, key);
      Upload(cfg, env, path, key)
  }

  /** The exception the single-file branch raises as written. */
  datatype RunError = NameError

  /** Single-file mode as written: once the file is not skipped, `get_headers(fullpath)`
      names a variable only the directory branch assigns, and the run stops. */
  function SingleFileAsWritten(cfg: Config, env: Env, path: string): Result<seq<Action>, RunError>
  {
    var key := Basename(path, cfg.sep);
    if Skipped(cfg, env, key) then
      Ok(if cfg.quiet then [] else [Skipping(path)])
    else
      Err(NameError)
  }

  /** A file that is not skipped makes the written single-file mode fail before anything
      is uploaded, where the corrected mode uploads it under its base name. */
  lemma SingleFileAsWrittenFails(cfg: Config, env: Env, path: string)
    requires !Skipped(cfg, env, Basename(path, cfg.sep))
    ensures SingleFileAsWritten(cfg, env, path) == Err(NameError)
    ensures WrittenKeys(SingleFilePlan(cfg, env, path)) == {Basename(path, cfg.sep)}
  {
  }

  /** Single-file mode writes even in a dry run: its writes do not depend on `no_op`. */
  lemma SingleFileIgnoresDryRun(cfg: Config, env: Env, path: string)
    ensures SingleFilePlan(cfg.(noOp := true), env, path) == SingleFilePlan(cfg.(noOp := false), env, path)
  {
  }

  /** In quiet, non-dry runs, single-file mode does what one iteration of the directory
      loop does for the same file, when the directory key is the file's name. */
  lemma SingleFileMatchesLoopBody(cfg: Config, env: Env, root: string, name: string)
    requires cfg.quiet && !cfg.noOp
    requires name != [] && cfg.sep !in name
    requires GetKeyName(PathJoin(root, name, cfg.sep), cfg.prefix, cfg.sep) == name
    ensures SingleFilePlan(cfg, env, PathJoin(root, name, cfg.sep)) == FilePlan(cfg, env, Candidate(PathJoin(root, name, cfg.sep), name))
  {
    BasenameOfJoin(root, name, cfg.sep);
  }

  /** The single-file branch of `main` (corrected as above). */
  method HandleSingleFile(cfg: Config, env: Env, path: string) returns (acts: seq<Action>)
    ensures acts == SingleFilePlan(cfg, env, path)
  {
    var keyName := Basename(path, cfg.sep);
    var copyFile := true;
    acts := [];
    if cfg.noOverwrite {
      if keyName in env.existing {
        copyFile := false;
        if !cfg.quiet {
          acts := acts + [Skipping(path)];
        }
      }
    }
    if copyFile {
      acts := WriteObject(cfg, env, path, keyName);
    }
  }

  // ----- Dispatch -----

  /** What the source path turned out to be. */
  datatype Target = Directory(tree: Dir) | RegularFile | Neither

  /** How a run ends: with the usage text, or after its actions with its file count. */
  datatype Outcome = Usage | Finished(actions: seq<Action>, total: nat)

  /** The part of `main` after option parsing: without a bucket name the usage is
      printed; otherwise the mode the path calls for runs, and a path that is neither a
      directory nor a regular file ends the run with nothing done. */
  method Run(cfg: Config, env: Env, path: string, target: Target) returns (o: Outcome)
    ensures cfg.bucket == [] <==> o == Usage
    ensures cfg.bucket != [] && target.Neither? ==> o == Finished([], 0)
    ensures cfg.bucket != [] && target.Directory? ==>
      var cs := Considered(cfg.ignore, cfg.sep, path, target.tree);
      o == Finished((if cfg.noOverwrite && !cfg.quiet then [GettingKeys] else []) + PlanFiles(cfg, env, cs), |cs|)
    ensures cfg.bucket != [] && target.RegularFile? ==> o == Finished(SingleFilePlan(cfg, env, path), 0)
  {
    if cfg.bucket == [] {
      return Usage;
    }
    match target {
      case Directory(tree) =>
        var notice: seq<Action> := [];
        if cfg.noOverwrite && !cfg.quiet {
          notice := [GettingKeys];
        }
        var actions, total := PlanDirectory(cfg, env, path, tree);
        o := Finished(notice + actions, total);
      case RegularFile =>
        var actions := HandleSingleFile(cfg, env, path);
        o := Finished(actions, 0);
      case Neither =>
        o := Finished([], 0);
    }
  }
}
