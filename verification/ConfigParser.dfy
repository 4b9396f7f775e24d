/** Recursive inclusion of configuration files (config_parser.cpp). A file is what parsing it yields:
    its include list (for each pattern the files it expands to), scalar settings and programs, and
    whether its sections are acceptable: `wellFormed` is about what is parsed before the includes are
    read, `programsValid` about the program sections, which are parsed after them. The
    include tree is the independent account of what should be read; the parser mutates one shared
    configuration while it recurses. */
module ConfigParserModel {
  import opened ProcessModel
  import opened Sequences
  import opened Wrappers

  const MAX_DEPTH: nat := 10

  type Path = string

  datatype File = File(
    secure: bool, wellFormed: bool, programsValid: bool,
    includes: seq<seq<Path>>, settings: map<string, string>, programs: seq<ProgramConfig>)

  type Files = map<Path, File>

  datatype Config = Config(included: set<Path>, settings: map<string, string>, programs: seq<ProgramConfig>)

  datatype Error = AlreadyIncluded | Insecure | Unreadable | TooDeep | Malformed | BadProgram | MissingRequired

  // ---- The include tree ----

  /** `Cut` is an include that is too deep, or names no file. */
  datatype Tree = Node(path: Path, children: seq<Tree>) | Cut(path: Path)

  function Flatten(patterns: seq<seq<Path>>): seq<Path> {
    if patterns == [] then [] else patterns[0] + Flatten(patterns[1..])
  }

  function Unfold(fs: Files, p: Path, depth: nat): Tree
    decreases MAX_DEPTH - depth, 0
  {
    if p in fs && depth < MAX_DEPTH then Node(p, UnfoldAll(fs, Flatten(fs[p].includes), depth + 1)) else Cut(p)
  }

  function UnfoldAll(fs: Files, ps: seq<Path>, depth: nat): (ts: seq<Tree>)
    ensures |ts| == |ps| && forall i :: 0 <= i < |ps| ==> ts[i] == Unfold(fs, ps[i], depth)
    decreases MAX_DEPTH - depth, 1, |ps|
  {
    if ps == [] then [] else [Unfold(fs, ps[0], depth)] + UnfoldAll(fs, ps[1..], depth)
  }

  function PreOrder(ts: seq<Tree>): seq<Path> {
    if ts == [] then []
    else [ts[0].path] + (if ts[0].Node? then PreOrder(ts[0].children) else []) + PreOrder(ts[1..])
  }

  function PostOrder(ts: seq<Tree>): seq<Path> {
    if ts == [] then []
    else (if ts[0].Node? then PostOrder(ts[0].children) else []) + [ts[0].path] + PostOrder(ts[1..])
  }

  function Height(t: Tree): nat {
    if t.Cut? then 0 else 1 + MaxHeight(t.children)
  }

  function MaxHeight(ts: seq<Tree>): nat {
    if ts == [] then 0 else Max(Height(ts[0]), MaxHeight(ts[1..]))
  }

  /** The tree is finite for every include graph, cyclic or not, with at most ten levels. */
  lemma {:induction false} TreeAtMostTenHigh(fs: Files, p: Path, depth: nat)
    ensures Height(Unfold(fs, p, depth)) <= Max(0, MAX_DEPTH - depth)
    decreases MAX_DEPTH - depth, 0
  {
    if p in fs && depth < MAX_DEPTH {
      TreesAtMostTenHigh(fs, Flatten(fs[p].includes), depth + 1);
    }
  }

  lemma {:induction false} TreesAtMostTenHigh(fs: Files, ps: seq<Path>, depth: nat)
    ensures MaxHeight(UnfoldAll(fs, ps, depth)) <= Max(0, MAX_DEPTH - depth)
    decreases MAX_DEPTH - depth, 1, |ps|
  {
    if ps != [] {
      TreeAtMostTenHigh(fs, ps[0], depth);
      TreesAtMostTenHigh(fs, ps[1..], depth);
      assert UnfoldAll(fs, ps, depth)[1..] == UnfoldAll(fs, ps[1..], depth);
    }
  }

  predicate Acceptable(f: File) {
    f.secure && f.wellFormed && f.programsValid
  }

  /** Every file is there, acceptable, and not too deep. */
  predicate Sound(fs: Files, ts: seq<Tree>) {
    ts == [] || (
      && ts[0].Node? && ts[0].path in fs && Acceptable(fs[ts[0].path])
      && Sound(fs, ts[0].children) && Sound(fs, ts[1..]))
  }

  /** No path twice, and none that was included before. */
  predicate AllNew(ps: seq<Path>, included: set<Path>)
    decreases |ps|
  {
    ps == [] || (ps[0] !in included && AllNew(ps[1..], included + {ps[0]}))
  }

  // ---- What reading the trees adds to a configuration ----

  function Elements(ps: seq<Path>): set<Path> {
    set p | p in ps
  }

  function SettingsOf(fs: Files, p: Path): map<string, string> {
    if p in fs then fs[p].settings else map[]
  }

  function ProgramsOf(fs: Files, p: Path): seq<ProgramConfig> {
    if p in fs then fs[p].programs else []
  }

  function Overwrite(fs: Files, settings: map<string, string>, ps: seq<Path>): map<string, string>
    decreases |ps|
  {
    if ps == [] then settings else Overwrite(fs, settings + SettingsOf(fs, ps[0]), ps[1..])
  }

  function AllPrograms(fs: Files, ps: seq<Path>): seq<ProgramConfig> {
    if ps == [] then [] else ProgramsOf(fs, ps[0]) + AllPrograms(fs, ps[1..])
  }

  predicate Succeeds(fs: Files, ts: seq<Tree>, c: Config) {
    Sound(fs, ts) && AllNew(PreOrder(ts), c.included)
  }

  function After(fs: Files, ts: seq<Tree>, c: Config): Config {
    Config(c.included + Elements(PreOrder(ts)), Overwrite(fs, c.settings, PreOrder(ts)),
           c.programs + AllPrograms(fs, PostOrder(ts)))
  }

  // ---- Order-preserving pieces ----

  lemma {:induction false} AllNewAppend(ps: seq<Path>, qs: seq<Path>, included: set<Path>)
    ensures AllNew(ps + qs, included) <==> AllNew(ps, included) && AllNew(qs, included + Elements(ps))
    decreases |ps|
  {
    if ps == [] {
      assert ps + qs == qs && included + Elements(ps) == included;
    } else {
      assert (ps + qs)[0] == ps[0] && (ps + qs)[1..] == ps[1..] + qs;
      AllNewAppend(ps[1..], qs, included + {ps[0]});
      assert included + {ps[0]} + Elements(ps[1..]) == included + Elements(ps);
    }
  }

  lemma {:induction false} OverwriteAppend(fs: Files, settings: map<string, string>, ps: seq<Path>, qs: seq<Path>)
    ensures Overwrite(fs, settings, ps + qs) == Overwrite(fs, Overwrite(fs, settings, ps), qs)
    decreases |ps|
  {
    if ps == [] {
      assert ps + qs == qs;
    } else {
      assert (ps + qs)[0] == ps[0] && (ps + qs)[1..] == ps[1..] + qs;
      OverwriteAppend(fs, settings + SettingsOf(fs, ps[0]), ps[1..], qs);
    }
  }

  lemma {:induction false} AllProgramsAppend(fs: Files, ps: seq<Path>, qs: seq<Path>)
    ensures AllPrograms(fs, ps + qs) == AllPrograms(fs, ps) + AllPrograms(fs, qs)
    decreases |ps|
  {
    if ps == [] {
      assert ps + qs == qs;
    } else {
      assert (ps + qs)[0] == ps[0] && (ps + qs)[1..] == ps[1..] + qs;
      AllProgramsAppend(fs, ps[1..], qs);
    }
  }

  lemma {:induction false} PreOrderAppend(ts: seq<Tree>, us: seq<Tree>)
    ensures PreOrder(ts + us) == PreOrder(ts) + PreOrder(us)
    decreases |ts|
  {
    if ts == [] {
      assert ts + us == us;
    } else {
      var all, t := ts + us, ts[0];
      assert all[0] == t && all[1..] == ts[1..] + us;
      PreOrderAppend(ts[1..], us);
      Associative([t.path] + (if t.Node? then PreOrder(t.children) else []), PreOrder(ts[1..]), PreOrder(us));
    }
  }

  lemma {:induction false} PostOrderAppend(ts: seq<Tree>, us: seq<Tree>)
    ensures PostOrder(ts + us) == PostOrder(ts) + PostOrder(us)
    decreases |ts|
  {
    if ts == [] {
      assert ts + us == us;
    } else {
      var all, t := ts + us, ts[0];
      assert all[0] == t && all[1..] == ts[1..] + us;
      PostOrderAppend(ts[1..], us);
      Associative((if t.Node? then PostOrder(t.children) else []) + [t.path], PostOrder(ts[1..]), PostOrder(us));
    }
  }

  lemma {:induction false} SoundAppend(fs: Files, ts: seq<Tree>, us: seq<Tree>)
    ensures Sound(fs, ts + us) <==> Sound(fs, ts) && Sound(fs, us)
    decreases |ts|
  {
    if ts == [] {
      assert ts + us == us;
    } else {
      assert (ts + us)[0] == ts[0] && (ts + us)[1..] == ts[1..] + us;
      SoundAppend(fs, ts[1..], us);
    }
  }

  lemma ElementsAppend(ps: seq<Path>, qs: seq<Path>, included: set<Path>)
    ensures included + Elements(ps + qs) == included + Elements(ps) + Elements(qs)
  {
  }

  /** Reading one list of files after another. */
  lemma InSequence(fs: Files, ts: seq<Tree>, us: seq<Tree>, c: Config)
    ensures Succeeds(fs, ts + us, c) <==> Succeeds(fs, ts, c) && Succeeds(fs, us, After(fs, ts, c))
    ensures After(fs, ts + us, c) == After(fs, us, After(fs, ts, c))
  {
    PreOrderAppend(ts, us);
    PostOrderAppend(ts, us);
    SoundAppend(fs, ts, us);
    AllNewAppend(PreOrder(ts), PreOrder(us), c.included);
    OverwriteAppend(fs, c.settings, PreOrder(ts), PreOrder(us));
    AllProgramsAppend(fs, PostOrder(ts), PostOrder(us));
    Associative(c.programs, AllPrograms(fs, PostOrder(ts)), AllPrograms(fs, PostOrder(us)));
    ElementsAppend(PreOrder(ts), PreOrder(us), c.included);
  }

  /** The configuration when the includes of a file are about to be read. */
  function Entered(f: File, p: Path, c: Config): Config {
    Config(c.included + {p}, c.settings + f.settings, c.programs)
  }

  function Left(f: File, c: Config): Config {
    c.(programs := c.programs + f.programs)
  }

  /** Reading one file: itself first, then its includes, and its programs last. */
  lemma OneFile(fs: Files, p: Path, children: seq<Tree>, c: Config)
    requires p in fs
    ensures var f, t := fs[p], Node(p, children);
      && (Succeeds(fs, [t], c) <==> p !in c.included && Acceptable(f) && Succeeds(fs, children, Entered(f, p, c)))
      && After(fs, [t], c) == Left(f, After(fs, children, Entered(f, p, c)))
  {
    var f := fs[p];
    var pre, post := PreOrder(children), PostOrder(children);
    OneFileOrders(p, children);
    assert [Node(p, children)][1..] == [] && ([p] + pre)[1..] == pre && [p][1..] == [];
    ElementsAppend([p], pre, c.included);
    assert c.included + Elements([p]) == c.included + {p};
    AllProgramsAppend(fs, post, [p]);
    assert AllPrograms(fs, [p]) == f.programs;
    Associative(c.programs, AllPrograms(fs, post), f.programs);
    assert Overwrite(fs, c.settings, [p] + pre) == Overwrite(fs, c.settings + f.settings, pre);
    assert After(fs, [Node(p, children)], c) == Left(f, After(fs, children, Entered(f, p, c)));
    assert Sound(fs, [Node(p, children)]) <==> Acceptable(f) && Sound(fs, children);
    assert AllNew([p] + pre, c.included) <==> p !in c.included && AllNew(pre, c.included + {p});
  }

  lemma OneFileOrders(p: Path, children: seq<Tree>)
    ensures PreOrder([Node(p, children)]) == [p] + PreOrder(children)
    ensures PostOrder([Node(p, children)]) == PostOrder(children) + [p]
  {
    assert [Node(p, children)][1..] == [];
  }

  lemma OneCut(fs: Files, p: Path, c: Config)
    ensures !Succeeds(fs, [Cut(p)], c)
  {
  }

  // ---- The parser ----

  class ConfigParser {
    const files: Files
    var included: set<Path>
    var settings: map<string, string>
    var programs: seq<ProgramConfig>

    ghost function View(): Config
      reads this
    {
      Config(included, settings, programs)
    }

    constructor (files: Files, defaults: map<string, string>)
      ensures this.files == files && View() == Config({}, defaults, [])
    {
      this.files := files;
      included, settings, programs := {}, defaults, [];
    }

    /** Succeeds exactly when the include tree below `p` has no missing, unacceptable or too deep file,
        and no file twice or already included. */
    method ParseSingleFile(p: Path, depth: nat) returns (err: Option<Error>)
      modifies this
      ensures err == None <==> Succeeds(files, [Unfold(files, p, depth)], old(View()))
      ensures err == None ==> View() == After(files, [Unfold(files, p, depth)], old(View()))
      decreases MAX_DEPTH - depth, 2
    {
      if p in included {
        AlreadyIncludedFails(p, depth, View());
        return Some(AlreadyIncluded);
      }
      included := included + {p};
      if p !in files {
        OneCut(files, p, old(View()));
        return Some(Unreadable);
      }
      if !files[p].secure {
        return Some(Insecure);
      }
      err := ParseStream(files[p], p, depth, old(View()));
    }

    lemma AlreadyIncludedFails(p: Path, depth: nat, c: Config)
      requires p in c.included
      ensures !Succeeds(files, [Unfold(files, p, depth)], c)
    {
      assert PreOrder([Unfold(files, p, depth)])[0] == p;
    }

    method ParseStream(f: File, ghost p: Path, depth: nat, ghost c: Config) returns (err: Option<Error>)
      requires p in files && f == files[p] && f.secure && p !in c.included
      requires View() == c.(included := c.included + {p})
      modifies this
      ensures err == None <==> Succeeds(files, [Unfold(files, p, depth)], c)
      ensures err == None ==> View() == After(files, [Unfold(files, p, depth)], c)
      decreases MAX_DEPTH - depth, 1
    {
      if depth >= MAX_DEPTH {
        OneCut(files, p, c);
        return Some(TooDeep);
      }
      ghost var children := UnfoldAll(files, Flatten(f.includes), depth + 1);
      assert Unfold(files, p, depth) == Node(p, children);
      OneFile(files, p, children, c);
      if !f.wellFormed {
        return Some(Malformed);
      }
      settings := settings + f.settings;
      err := ParseIncludes(f.includes, depth + 1);
      if err != None {
        return;
      }
      if !f.programsValid {
        return Some(BadProgram);
      }
      programs := programs + f.programs;
    }

    method ParseIncludes(patterns: seq<seq<Path>>, depth: nat) returns (err: Option<Error>)
      requires 0 < depth <= MAX_DEPTH
      modifies this
      ensures err == None <==> Succeeds(files, UnfoldAll(files, Flatten(patterns), depth), old(View()))
      ensures err == None ==> View() == After(files, UnfoldAll(files, Flatten(patterns), depth), old(View()))
      decreases MAX_DEPTH - depth, 4
    {
      ghost var all := UnfoldAll(files, Flatten(patterns), depth);
      ghost var done: seq<Tree> := [];
      NothingRead(View());
      for i := 0 to |patterns|
        invariant done + UnfoldAll(files, Flatten(patterns[i..]), depth) == all
        invariant Succeeds(files, done, old(View())) && View() == After(files, done, old(View()))
      {
        ghost var these := UnfoldAll(files, patterns[i], depth);
        ghost var rest := UnfoldAll(files, Flatten(patterns[i+1..]), depth);
        NextPattern(patterns, i, depth);
        Associative(done, these, rest);
        InSequence(files, done, these, old(View()));
        InSequence(files, done + these, rest, old(View()));
        err := ParseFiles(patterns[i], depth);
        if err != None {
          return;
        }
        done := done + these;
      }
      assert patterns[|patterns|..] == [] && done + [] == done;
      err := None;
    }

    lemma NextPattern(patterns: seq<seq<Path>>, i: nat, depth: nat)
      requires i < |patterns|
      ensures UnfoldAll(files, Flatten(patterns[i..]), depth)
        == UnfoldAll(files, patterns[i], depth) + UnfoldAll(files, Flatten(patterns[i+1..]), depth)
    {
      assert patterns[i..][0] == patterns[i] && patterns[i..][1..] == patterns[i+1..];
      var ps, qs := patterns[i], Flatten(patterns[i+1..]);
      assert Flatten(patterns[i..]) == ps + qs;
      assert UnfoldAll(files, ps + qs, depth) == UnfoldAll(files, ps, depth) + UnfoldAll(files, qs, depth);
    }

    lemma NothingRead(c: Config)
      ensures Succeeds(files, [], c) && After(files, [], c) == c
    {
      assert c.included + Elements([]) == c.included;
    }

    /** The files that one pattern expands to. */
    method ParseFiles(ps: seq<Path>, depth: nat) returns (err: Option<Error>)
      requires 0 < depth <= MAX_DEPTH
      modifies this
      ensures err == None <==> Succeeds(files, UnfoldAll(files, ps, depth), old(View()))
      ensures err == None ==> View() == After(files, UnfoldAll(files, ps, depth), old(View()))
      decreases MAX_DEPTH - depth, 3
    {
      ghost var all := UnfoldAll(files, ps, depth);
      NothingRead(View());
      for i := 0 to |ps|
        invariant Succeeds(files, all[..i], old(View())) && View() == After(files, all[..i], old(View()))
      {
        assert all[..i] + [all[i]] == all[..i+1] && all[..i+1] + all[i+1..] == all;
        InSequence(files, all[..i], [all[i]], old(View()));
        InSequence(files, all[..i+1], all[i+1..], old(View()));
        err := ParseSingleFile(ps[i], depth);
        if err != None {
          return;
        }
      }
      assert all[..|ps|] == all;
      err := None;
    }
  }

  const SOCKET_FILE := "unix_http_server.file"
  const LOGFILE := "supervisord.logfile"
  const DEFAULTS: map<string, string> := map[SOCKET_FILE := "/run/supervisord.sock", LOGFILE := "/var/log/supervisord.log"]

  predicate HasRequired(settings: map<string, string>) {
    && SOCKET_FILE in settings && settings[SOCKET_FILE] != ""
    && LOGFILE in settings && settings[LOGFILE] != ""
  }

  method ParseFile(files: Files, root: Path) returns (err: Option<Error>, config: Config)
    ensures err == None <==>
      && Succeeds(files, [Unfold(files, root, 0)], Config({}, DEFAULTS, []))
      && var settings := After(files, [Unfold(files, root, 0)], Config({}, DEFAULTS, [])).settings;
         forall key :: key == SOCKET_FILE || key == LOGFILE ==> key in settings && settings[key] != ""
    ensures err == None ==> config == After(files, [Unfold(files, root, 0)], Config({}, DEFAULTS, []))
  {
    config := Config({}, DEFAULTS, []);
    if root !in files {
      OneCut(files, root, config);
      return Some(Unreadable), config;
    }
    var parser := new ConfigParser(files, DEFAULTS);
    err := parser.ParseSingleFile(root, 0);
    if err == None {
      config := Config(parser.included, parser.settings, parser.programs);
      if !HasRequired(config.settings) {
        err := Some(MissingRequired);
      }
    }
  }

  // ---- What success means ----

  predicate Distinct(ps: seq<Path>) {
    forall i, j :: 0 <= i < j < |ps| ==> ps[i] != ps[j]
  }

  /** Exactly once: new means that no path comes twice and none was there before. */
  lemma {:induction false} AllNewMeansDistinct(ps: seq<Path>, included: set<Path>)
    ensures AllNew(ps, included) <==> Distinct(ps) && forall p :: p in ps ==> p !in included
    decreases |ps|
  {
    if ps != [] {
      var rest := ps[1..];
      AllNewMeansDistinct(rest, included + {ps[0]});
      assert forall i :: 0 < i < |ps| ==> ps[i] == rest[i - 1];
      assert forall p :: p in ps <==> p == ps[0] || p in rest;
      assert Distinct(ps) ==> Distinct(rest);
      if Distinct(rest) && ps[0] !in rest {
        forall i, j | 0 <= i < j < |ps|
          ensures ps[i] != ps[j]
        {
          assert ps[j] == rest[j - 1] && (i > 0 ==> ps[i] == rest[i - 1]);
        }
      }
    }
  }

  /** A key that file number `i` sets and no later one has the value of file number `i`. */
  lemma {:induction false} LastSettingWins(fs: Files, settings: map<string, string>, ps: seq<Path>, key: string, i: nat)
    requires i < |ps| && key in SettingsOf(fs, ps[i])
    requires forall j :: i < j < |ps| ==> key !in SettingsOf(fs, ps[j])
    ensures key in Overwrite(fs, settings, ps) && Overwrite(fs, settings, ps)[key] == SettingsOf(fs, ps[i])[key]
    decreases |ps|
  {
    var next := settings + SettingsOf(fs, ps[0]);
    assert forall j :: 0 <= j < |ps[1..]| ==> ps[1..][j] == ps[j + 1];
    if i == 0 {
      UntouchedSetting(fs, next, ps[1..], key);
    } else {
      LastSettingWins(fs, next, ps[1..], key, i - 1);
    }
  }

  lemma {:induction false} UntouchedSetting(fs: Files, settings: map<string, string>, ps: seq<Path>, key: string)
    requires forall j :: 0 <= j < |ps| ==> key !in SettingsOf(fs, ps[j])
    ensures key in Overwrite(fs, settings, ps) <==> key in settings
    ensures key in settings ==> Overwrite(fs, settings, ps)[key] == settings[key]
    decreases |ps|
  {
    if ps != [] {
      assert forall j :: 0 <= j < |ps[1..]| ==> ps[1..][j] == ps[j + 1];
      UntouchedSetting(fs, settings + SettingsOf(fs, ps[0]), ps[1..], key);
    }
  }

  // ---- Include chains ----

  /** Each file of `ps` is in the include list of the one before it. */
  predicate IsChain(fs: Files, ps: seq<Path>) {
    ps != [] && (|ps| == 1 || (ps[0] in fs && ps[1] in Flatten(fs[ps[0]].includes) && IsChain(fs, ps[1..])))
  }

  predicate CanBeRead(fs: Files, p: Path) {
    p in fs && fs[p].secure && fs[p].wellFormed && fs[p].programsValid
  }

  ghost predicate ChainsCanBeRead(fs: Files, p: Path, above: nat) {
    forall ps :: IsChain(fs, ps) && ps[0] == p ==> above + |ps| <= 10 && CanBeRead(fs, ps[|ps|-1])
  }

  lemma {:induction false} SoundEach(fs: Files, ts: seq<Tree>)
    ensures Sound(fs, ts) <==> forall i :: 0 <= i < |ts| ==> Sound(fs, [ts[i]])
    decreases |ts|
  {
    if ts != [] {
      SoundAppend(fs, [ts[0]], ts[1..]);
      assert [ts[0]] + ts[1..] == ts;
      SoundEach(fs, ts[1..]);
    }
  }

  lemma SoundBelow(fs: Files, p: Path, depth: nat, q: Path)
    requires Sound(fs, [Unfold(fs, p, depth)]) && p in fs && q in Flatten(fs[p].includes)
    ensures depth < 10 && Sound(fs, [Unfold(fs, q, depth + 1)])
  {
    var qs := Flatten(fs[p].includes);
    var i :| 0 <= i < |qs| && qs[i] == q;
    SoundEach(fs, UnfoldAll(fs, qs, depth + 1));
  }

  lemma {:induction false} ChainOfSound(fs: Files, ps: seq<Path>, depth: nat)
    requires IsChain(fs, ps) && Sound(fs, [Unfold(fs, ps[0], depth)])
    ensures depth + |ps| <= 10 && CanBeRead(fs, ps[|ps|-1])
    decreases |ps|
  {
    if |ps| > 1 {
      SoundBelow(fs, ps[0], depth, ps[1]);
      ChainOfSound(fs, ps[1..], depth + 1);
    }
  }

  lemma ChainsBelow(fs: Files, p: Path, depth: nat, q: Path)
    requires ChainsCanBeRead(fs, p, depth) && p in fs && q in Flatten(fs[p].includes)
    ensures ChainsCanBeRead(fs, q, depth + 1)
  {
    forall ps | IsChain(fs, ps) && ps[0] == q
      ensures depth + 1 + |ps| <= 10 && CanBeRead(fs, ps[|ps|-1])
    {
      var all := [p] + ps;
      assert all[1..] == ps && all[1] == ps[0];
      assert all[0] == p && all[|all|-1] == ps[|ps|-1];
    }
  }

  lemma {:induction false} SoundOfChains(fs: Files, p: Path, depth: nat)
    requires ChainsCanBeRead(fs, p, depth)
    ensures Sound(fs, [Unfold(fs, p, depth)])
    decreases 10 - depth
  {
    assert IsChain(fs, [p]) && [p][0] == p;
    var qs := Flatten(fs[p].includes);
    var ts := UnfoldAll(fs, qs, depth + 1);
    forall i | 0 <= i < |ts|
      ensures Sound(fs, [ts[i]])
    {
      ChainsBelow(fs, p, depth, qs[i]);
      SoundOfChains(fs, qs[i], depth + 1);
    }
    SoundEach(fs, ts);
    assert Unfold(fs, p, depth) == Node(p, ts) && [Node(p, ts)][1..] == [];
  }

  /** Said without the tree: all files can be read exactly if every chain of includes from the root is at most
      ten files long and ends in a file that is there, safe, well-formed and has valid programs. */
  lemma SoundMeansChains(fs: Files, root: Path)
    ensures Sound(fs, [Unfold(fs, root, 0)]) <==>
      forall ps :: IsChain(fs, ps) && ps[0] == root ==>
        && |ps| <= 10
        && var p := ps[|ps|-1]; p in fs && fs[p].secure && fs[p].wellFormed && fs[p].programsValid
  {
    if Sound(fs, [Unfold(fs, root, 0)]) {
      forall ps | IsChain(fs, ps) && ps[0] == root
        ensures |ps| <= 10 && CanBeRead(fs, ps[|ps|-1])
      {
        ChainOfSound(fs, ps, 0);
      }
    }
    if forall ps :: IsChain(fs, ps) && ps[0] == root ==> |ps| <= 10 && CanBeRead(fs, ps[|ps|-1]) {
      assert ChainsCanBeRead(fs, root, 0);
      SoundOfChains(fs, root, 0);
    }
  }

  /** In a tree that is read successfully no file includes itself, however indirectly. */
  lemma NoFileIncludesItself(fs: Files, p: Path, children: seq<Tree>, c: Config)
    requires Succeeds(fs, [Node(p, children)], c)
    ensures p !in PreOrder(children)
  {
    OneFileOrders(p, children);
    assert ([p] + PreOrder(children))[1..] == PreOrder(children);
    AllNewMeansDistinct(PreOrder(children), c.included + {p});
  }
}
