/** The index from user-facing context names to (kubeconfig file, name in that file): built
    once from a list of files, then refreshed file by file as they change on disk. */
module ContextRegistry {
  import opened Ordering

  datatype Entry = Entry(sourceFile: string, inFileName: string)
  datatype Config = Config(contexts: set<string>, currentContext: string)

  type Registry = map<string, Entry>
  type Configs = map<string, Config>
  type Mtimes = map<string, int>

  /** A file that is there: its modification time, and its content if it parses. */
  datatype OnDisk = OnDisk(mtime: int, parsed: Option<Config>)
  type Disk = map<string, OnDisk>

  function LoadFromFile(disk: Disk, path: string): Option<Config> {
    if path in disk then disk[path].parsed else None
  }

  ghost predicate Registered(registry: Registry, e: Entry) {
    exists n :: n in registry && registry[n] == e
  }

  /** No two names stand for the same context of the same file. */
  ghost predicate Injective(registry: Registry) {
    forall n, m :: n in registry && m in registry && registry[n] == registry[m] ==> n == m
  }

  /** The registry holds exactly the contexts of the parsed files. */
  ghost predicate Matches(registry: Registry, configs: Configs) {
    forall p, c :: Registered(registry, Entry(p, c)) <==> p in configs && c in configs[p].contexts
  }

  // Unique names.

  function Digit(d: nat): char
    requires d < 10
  {
    '0' + d as char
  }

  function Decimal(n: nat): string {
    if n < 10 then [Digit(n)] else Decimal(n / 10) + [Digit(n % 10)]
  }

  lemma {:induction false} DecimalInjective(m: nat, n: nat)
    requires Decimal(m) == Decimal(n)
    ensures m == n
  {
    var s, t := Decimal(m), Decimal(n);
    assert s[|s| - 1] == Digit(m % 10) && t[|t| - 1] == Digit(n % 10);
    DecimalLength(m);
    DecimalLength(n);
    if m >= 10 {
      assert s[..|s| - 1] == Decimal(m / 10) && t[..|t| - 1] == Decimal(n / 10);
      DecimalInjective(m / 10, n / 10);
    }
  }

  lemma {:induction false} DecimalLength(n: nat)
    ensures |Decimal(n)| >= 1 && (|Decimal(n)| == 1 <==> n < 10)
  {
    if n >= 10 { DecimalLength(n / 10); }
  }

  function Qualified(name: string, base: string): string {
    name + " (" + base + ")"
  }

  function Numbered(name: string, base: string, i: nat): string {
    name + " (" + base + " #" + Decimal(i) + ")"
  }

  lemma NumberedInjective(name: string, base: string, i: nat, j: nat)
    requires Numbered(name, base, i) == Numbered(name, base, j)
    ensures i == j
  {
    var prefix := name + " (" + base + " #";
    var x, y := Numbered(name, base, i), Numbered(name, base, j);
    assert x[|prefix|..] == Decimal(i) + ")" && y[|prefix|..] == Decimal(j) + ")";
    assert (Decimal(i) + ")")[..|Decimal(i)|] == Decimal(i) && (Decimal(j) + ")")[..|Decimal(j)|] == Decimal(j);
    assert |Decimal(i)| == |Decimal(j)|;
    DecimalInjective(i, j);
  }

  /** The plain name if it is free, else the name with its file's sourceLabel, else that with the
      first free number from 2 on. */
  ghost predicate IsUniqueName(registry: Registry, name: string, base: string, q: string) {
    && q !in registry
    && if name !in registry then q == name
       else if Qualified(name, base) !in registry then q == Qualified(name, base)
       else exists i: nat :: 2 <= i && q == Numbered(name, base, i)
                             && forall j: nat :: 2 <= j < i ==> Numbered(name, base, j) in registry
  }

  /** The search has no bound of its own. It stops because the numbered names are pairwise
      different and the registry is finite. */
  method QualifyContextName(registry: Registry, name: string, base: string) returns (q: string)
    ensures q !in registry && IsUniqueName(registry, name, base, q)
  {
    if name !in registry {
      return name;
    }
    q := Qualified(name, base);
    if q !in registry {
      return;
    }
    var i: nat := 2;
    q := Numbered(name, base, i);
    ghost var tried: set<string> := {};
    while q in registry
      invariant 2 <= i && q == Numbered(name, base, i)
      invariant forall j: nat :: 2 <= j < i ==> Numbered(name, base, j) in registry
      invariant forall s :: s in tried ==> exists j: nat :: 2 <= j < i && s == Numbered(name, base, j)
      decreases registry.Keys - tried
    {
      if q in tried {
        var j: nat :| 2 <= j < i && q == Numbered(name, base, j);
        NumberedInjective(name, base, i, j);
      }
      tried := tried + {q};
      i := i + 1;
      q := Numbered(name, base, i);
    }
  }

  // Building.

  /** How a context may be called: by its own name, or with its file's label and perhaps a number. */
  ghost predicate NamedAfter(n: string, e: Entry, sourceLabel: string -> string) {
    var base := sourceLabel(e.sourceFile);
    n == e.inFileName || n == Qualified(e.inFileName, base)
        || exists i: nat :: 2 <= i && n == Numbered(e.inFileName, base, i)
  }

  ghost predicate NamesFit(registry: Registry, sourceLabel: string -> string) {
    forall n :: n in registry ==> NamedAfter(n, registry[n], sourceLabel)
  }

  lemma NewNameFits(registry: Registry, name: string, path: string, sourceLabel: string -> string, q: string)
    requires IsUniqueName(registry, name, sourceLabel(path), q)
    ensures NamesFit(registry, sourceLabel) ==> NamesFit(registry[q := Entry(path, name)], sourceLabel)
    ensures name in registry[q := Entry(path, name)]
  {
    assert NamedAfter(q, Entry(path, name), sourceLabel);
    hide IsUniqueName, NamedAfter;
  }

  lemma FewerNamesFit(registry: Registry, r: Registry, sourceLabel: string -> string)
    requires NamesFit(registry, sourceLabel) && forall n :: n in r ==> n in registry && r[n] == registry[n]
    ensures NamesFit(r, sourceLabel)
  {
    hide NamedAfter;
  }

  lemma RegisterKeeps(registry: Registry, q: string, e: Entry)
    requires q !in registry
    ensures forall x :: Registered(registry[q := e], x) <==> Registered(registry, x) || x == e
    ensures Injective(registry[q := e]) <==> Injective(registry) && !Registered(registry, e)
  {
    var r' := registry[q := e];
    forall x ensures Registered(r', x) <==> Registered(registry, x) || x == e {
      if n :| n in registry && registry[n] == x {
        assert r'[n] == x;
      }
      assert r'[q] == e;
    }
    if Injective(r') {
      forall n, m | n in registry && m in registry && registry[n] == registry[m] ensures n == m {
        assert r'[n] == r'[m];
      }
      forall n | n in registry ensures registry[n] != e {
        assert n != q && r'[n] == registry[n] && r'[q] == e;
      }
    }
  }

  /** The empty name, if it is new, stands for a context that is called so. */
  ghost predicate NamelessFrom(r: Registry, registry: Registry) {
    "" in r && "" !in registry ==> r[""].inFileName == ""
  }

  lemma NamelessOnly(registry: Registry, name: string, base: string, q: string)
    requires IsUniqueName(registry, name, base, q)
    ensures q == "" ==> name == ""
  {
  }

  /** Registers every context of one file, in any order, under new names. */
  method RegisterFile(registry: Registry, path: string, cfg: Config, sourceLabel: string -> string)
    returns (r: Registry)
    ensures forall p, c :: Registered(r, Entry(p, c)) <==>
            Registered(registry, Entry(p, c)) || (p == path && c in cfg.contexts)
    ensures forall n :: n in registry ==> n in r && r[n] == registry[n]
    ensures forall n :: n in r && n !in registry ==> r[n].sourceFile == path
    ensures NamesFit(registry, sourceLabel) ==> NamesFit(r, sourceLabel)
    ensures forall c :: c in cfg.contexts ==> c in r
    ensures NamelessFrom(r, registry)
    ensures Injective(r) <==> Injective(registry) && forall c :: c in cfg.contexts ==>
            !Registered(registry, Entry(path, c))
  {
    hide Injective, Registered, IsUniqueName, NamesFit;
    r := registry;
    var todo := cfg.contexts;
    while todo != {}
      invariant todo <= cfg.contexts
      invariant forall p, c :: Registered(r, Entry(p, c)) <==>
                Registered(registry, Entry(p, c)) || (p == path && c in cfg.contexts - todo)
      invariant forall n :: n in registry ==> n in r && r[n] == registry[n]
      invariant forall n :: n in r && n !in registry ==> r[n].sourceFile == path
      invariant NamesFit(registry, sourceLabel) ==> NamesFit(r, sourceLabel)
      invariant forall c :: c in cfg.contexts - todo ==> c in r
      invariant NamelessFrom(r, registry)
      invariant Injective(r) <==> Injective(registry) && forall c :: c in cfg.contexts - todo ==>
                !Registered(registry, Entry(path, c))
      decreases todo
    {
      var name :| name in todo;
      todo := todo - {name};
      var q := QualifyContextName(r, name, sourceLabel(path));
      RegisterKeeps(r, q, Entry(path, name));
      NamelessOnly(r, name, sourceLabel(path), q);
      NewNameFits(r, name, path, sourceLabel, q);
      r := r[q := Entry(path, name)];
    }
  }

  /** A file that parses and holds contexts is listed more than once. */
  ghost predicate Repeats(disk: Disk, paths: seq<string>) {
    exists i, j :: 0 <= i < j < |paths| && paths[i] == paths[j] && ListsContexts(disk, paths[j])
  }

  predicate ListsContexts(disk: Disk, path: string) {
    LoadFromFile(disk, path).Some? && LoadFromFile(disk, path).value.contexts != {}
  }

  ghost predicate Loads(disk: Disk, paths: seq<string>, configs: Configs) {
    forall p :: (p in configs <==> p in paths && LoadFromFile(disk, p).Some?)
                && (p in configs ==> configs[p] == LoadFromFile(disk, p).value)
  }

  /** A name is only ever qualified because the plain one is taken. */
  ghost predicate PlainNamesTaken(registry: Registry) {
    forall n :: n in registry ==> registry[n].inFileName in registry
  }

  predicate Lists(disk: Disk, path: string, c: string) {
    LoadFromFile(disk, path).Some? && c in LoadFromFile(disk, path).value.contexts
  }

  ghost predicate FirstToList(disk: Disk, paths: seq<string>, path: string, c: string) {
    exists k :: 0 <= k < |paths| && paths[k] == path && Lists(disk, path, c)
                && forall j :: 0 <= j < k ==> !Lists(disk, paths[j], c)
  }

  /** Who goes by the plain name of its context comes from the first file that lists such a context. */
  ghost predicate FirstCome(disk: Disk, paths: seq<string>, registry: Registry) {
    forall n :: n in registry && registry[n].inFileName == n ==> FirstToList(disk, paths, registry[n].sourceFile, n)
  }

  /** The plain name of a context that is registered, or that some file read so far lists, is taken. */
  lemma ListedIsTaken(disk: Disk, paths: seq<string>, registry: Registry, configs: Configs, c: string)
    requires Loads(disk, paths, configs) && Matches(registry, configs) && PlainNamesTaken(registry)
    ensures forall p :: Registered(registry, Entry(p, c)) || (p in paths && Lists(disk, p, c)) ==> c in registry
  {
    forall p | p in paths && Lists(disk, p, c) ensures Registered(registry, Entry(p, c)) {
    }
  }

  lemma FirstComeStep(disk: Disk, paths: seq<string>, k: nat, registry: Registry, configs: Configs, r: Registry)
    requires k < |paths| && FirstCome(disk, paths[..k], registry) && PlainNamesTaken(registry)
    requires Loads(disk, paths[..k], configs) && Matches(registry, configs)
    requires forall n :: n in registry ==> n in r && r[n] == registry[n]
    requires forall n :: n in r && n !in registry ==>
               r[n].sourceFile == paths[k]
               && (Registered(registry, r[n]) || Lists(disk, paths[k], r[n].inFileName))
    ensures FirstCome(disk, paths[..k + 1], r)
  {
    var s, t := paths[..k], paths[..k + 1];
    assert t == s + [paths[k]];
    forall n | n in r && r[n].inFileName == n ensures FirstToList(disk, t, r[n].sourceFile, n) {
      if n in registry {
        EarlierFirst(disk, s, paths[k], r[n].sourceFile, n);
      } else {
        ListedIsTaken(disk, s, registry, configs, n);
        assert r[n] == Entry(paths[k], n);
        assert forall j :: 0 <= j < k ==> t[j] in s;
        assert t[k] == paths[k];
      }
    }
  }

  lemma EarlierFirst(disk: Disk, paths: seq<string>, next: string, path: string, c: string)
    requires FirstToList(disk, paths, path, c)
    ensures FirstToList(disk, paths + [next], path, c)
  {
    var k :| 0 <= k < |paths| && paths[k] == path && Lists(disk, path, c)
             && forall j :: 0 <= j < k ==> !Lists(disk, paths[j], c);
    assert (paths + [next])[k] == path;
  }

  lemma PlainNamesStep(registry: Registry, r: Registry, live: set<string>)
    requires PlainNamesTaken(registry) && forall n :: n in registry ==> n in r && r[n] == registry[n]
    requires forall n :: n in r && n !in registry ==> Registered(registry, r[n]) || r[n].inFileName in live
    requires forall c :: c in live ==> c in r
    ensures PlainNamesTaken(r)
  {
  }

  /** Where an entry of a registry with one more file comes from. */
  lemma NewEntries(disk: Disk, registry: Registry, r: Registry, path: string)
    requires LoadFromFile(disk, path).Some?
    requires forall p, c :: Registered(r, Entry(p, c)) <==>
               Registered(registry, Entry(p, c))
               || (p == path && c in LoadFromFile(disk, path).value.contexts)
    ensures forall n :: n in r ==>
              Registered(registry, r[n])
              || (Lists(disk, path, r[n].inFileName) && r[n].inFileName in LoadFromFile(disk, path).value.contexts)
  {
    forall n | n in r ensures Registered(registry, r[n]) || Lists(disk, path, r[n].inFileName) {
      assert Registered(r, Entry(r[n].sourceFile, r[n].inFileName));
    }
  }

  /** Builds the registry from the files on disk. It matches them always, and is a bijection
      exactly when no file with contexts is listed twice. */
  method BuildContextRegistry(disk: Disk, paths: seq<string>, sourceLabel: string -> string)
    returns (registry: Registry, configs: Configs)
    ensures Loads(disk, paths, configs) && Matches(registry, configs)
    ensures Injective(registry) <==> !Repeats(disk, paths)
    ensures NamelessFrom(registry, map[])
    // plain names go to whoever comes first, and stay plain unless taken
    ensures NamesFit(registry, sourceLabel) && PlainNamesTaken(registry) && FirstCome(disk, paths, registry)
  {
    hide *;
    NoNames(disk, sourceLabel);
    registry, configs := map[], map[];
    for k := 0 to |paths|
      invariant Loads(disk, paths[..k], configs) && Matches(registry, configs)
      invariant NamelessFrom(registry, map[])
      invariant Injective(registry) <==> !Repeats(disk, paths[..k])
      invariant NamesFit(registry, sourceLabel) && PlainNamesTaken(registry) && FirstCome(disk, paths[..k], registry)
    {
      var path := paths[k];
      var cfg := LoadFromFile(disk, path);
      NextFile(disk, paths, k, registry, configs);
      if cfg.Some? {
        var r := RegisterFile(registry, path, cfg.value, sourceLabel);
        NewEntries(disk, registry, r, path);
        FirstComeStep(disk, paths, k, registry, configs, r);
        PlainNamesStep(registry, r, cfg.value.contexts);
        NextMatches(disk, paths, k, registry, configs, r);
        NamelessStep(registry, r);
        registry := r;
        configs := configs[path := cfg.value];
      } else {
        FirstComeStep(disk, paths, k, registry, configs, registry);
      }
    }
    assert paths[..|paths|] == paths;
  }

  /** One more file in the list: what is parsed, and when it is a repetition. */
  lemma NextFile(disk: Disk, paths: seq<string>, k: nat, registry: Registry, configs: Configs)
    requires k < |paths| && Loads(disk, paths[..k], configs) && Matches(registry, configs)
    ensures var cfg := LoadFromFile(disk, paths[k]);
            Loads(disk, paths[..k + 1], if cfg.Some? then configs[paths[k] := cfg.value] else configs)
    ensures LoadFromFile(disk, paths[k]).None? ==> (Repeats(disk, paths[..k + 1]) <==> Repeats(disk, paths[..k]))
  {
    RepeatsSnoc(disk, paths, k);
  }

  lemma NextMatches(disk: Disk, paths: seq<string>, k: nat, registry: Registry, configs: Configs, r: Registry)
    requires k < |paths| && Loads(disk, paths[..k], configs) && Matches(registry, configs)
    requires LoadFromFile(disk, paths[k]).Some?
    requires Injective(registry) <==> !Repeats(disk, paths[..k])
    requires var live := LoadFromFile(disk, paths[k]).value.contexts;
             && (forall p, c :: Registered(r, Entry(p, c)) <==>
                   Registered(registry, Entry(p, c)) || (p == paths[k] && c in live))
             && (Injective(r) <==> Injective(registry) && forall c :: c in live ==>
                   !Registered(registry, Entry(paths[k], c)))
    ensures Matches(r, configs[paths[k] := LoadFromFile(disk, paths[k]).value])
    ensures Injective(r) <==> !Repeats(disk, paths[..k + 1])
  {
    hide Registered, Injective;
    RepeatsSnoc(disk, paths, k);
  }

  lemma NamelessStep(registry: Registry, r: Registry)
    requires NamelessFrom(registry, map[]) && NamelessFrom(r, registry)
    requires forall n :: n in registry ==> n in r && r[n] == registry[n]
    ensures NamelessFrom(r, map[])
  {
  }

  lemma NoNames(disk: Disk, sourceLabel: string -> string)
    ensures NamesFit(map[], sourceLabel) && PlainNamesTaken(map[]) && FirstCome(disk, [], map[])
    ensures Loads(disk, [], map[]) && Matches(map[], map[]) && NamelessFrom(map[], map[])
    ensures Injective(map[]) && !Repeats(disk, [])
  {
  }

  lemma RepeatsSnoc(disk: Disk, paths: seq<string>, k: nat)
    requires k < |paths|
    ensures Repeats(disk, paths[..k + 1]) <==>
            Repeats(disk, paths[..k]) || (paths[k] in paths[..k] && ListsContexts(disk, paths[k]))
    ensures forall p :: p in paths[..k + 1] <==> p in paths[..k] || p == paths[k]
  {
    var s, t := paths[..k], paths[..k + 1];
    assert t == s + [paths[k]];
    if Repeats(disk, s) {
      var i, j :| 0 <= i < j < |s| && s[i] == s[j] && ListsContexts(disk, s[j]);
      assert t[i] == t[j];
    }
    if paths[k] in s && ListsContexts(disk, paths[k]) {
      var i :| 0 <= i < |s| && s[i] == paths[k];
      assert t[i] == t[k];
    }
  }

  // Looking up.

  /** The name of a (file, context) pair, or "" if none is found. */
  method FindQualifiedNameForPath(registry: Registry, file: string, inFileName: string) returns (q: string)
    ensures q != "" ==> q in registry && registry[q] == Entry(file, inFileName)
    ensures q == "" ==> forall n :: n in registry && registry[n] == Entry(file, inFileName) ==>
                          "" in registry && registry[""] == Entry(file, inFileName)
  {
    var found := LookUp(registry, Entry(file, inFileName));
    return if found.Some? then found.value else "";
  }

  /** Visits the registry in any order up to the first match. */
  method LookUp(registry: Registry, e: Entry) returns (r: Option<string>)
    ensures r.Some? <==> Registered(registry, e)
    ensures r.Some? ==> r.value in registry && registry[r.value] == e
  {
    var todo := registry.Keys;
    while todo != {}
      invariant todo <= registry.Keys
      invariant forall n :: n in registry && registry[n] == e ==> n in todo
      decreases todo
    {
      var n :| n in todo;
      if registry[n] == e {
        return Some(n);
      }
      todo := todo - {n};
    }
    return None;
  }

  /** The file names a current context that the registry knows. */
  ghost predicate DeclaresCurrent(registry: Registry, configs: Configs, path: string) {
    path in configs && configs[path].currentContext != ""
        && Registered(registry, Entry(path, configs[path].currentContext))
  }

  ghost predicate HasContext(registry: Registry, configs: Configs, path: string, c: string) {
    path in configs && c in configs[path].contexts && Registered(registry, Entry(path, c))
  }

  ghost predicate Usable(registry: Registry, configs: Configs, path: string) {
    DeclaresCurrent(registry, configs, path) || exists c :: HasContext(registry, configs, path, c)
  }

  /** The choice of the context to start in: the declared current context of the first file
      that has one, else some context of the first file with any. */
  ghost predicate InitialChoice(paths: seq<string>, registry: Registry, configs: Configs, e: Entry) {
    if exists p :: p in paths && DeclaresCurrent(registry, configs, p) then
      exists k :: 0 <= k < |paths| && DeclaresCurrent(registry, configs, paths[k])
                  && (forall j :: 0 <= j < k ==> !DeclaresCurrent(registry, configs, paths[j]))
                  && e == Entry(paths[k], configs[paths[k]].currentContext)
    else
      exists k :: 0 <= k < |paths| && HasContext(registry, configs, paths[k], e.inFileName) && e.sourceFile == paths[k]
                  && forall j :: 0 <= j < k ==> !Usable(registry, configs, paths[j])
  }

  method PickInitialContext(paths: seq<string>, registry: Registry, configs: Configs)
    returns (qName: string, entry: Entry, ok: bool)
    ensures ok <==> exists p :: p in paths && Usable(registry, configs, p)
    ensures ok ==> qName in registry && registry[qName] == entry && InitialChoice(paths, registry, configs, entry)
  {
    for k := 0 to |paths|
      invariant forall j :: 0 <= j < k ==> !DeclaresCurrent(registry, configs, paths[j])
    {
      var path := paths[k];
      if path in configs && configs[path].currentContext != "" {
        entry := Entry(path, configs[path].currentContext);
        var found := LookUp(registry, entry);
        if found.Some? {
          assert Usable(registry, configs, path);
          return found.value, entry, true;
        }
      }
    }
    for k := 0 to |paths|
      invariant forall j :: 0 <= j < k ==> !Usable(registry, configs, paths[j])
    {
      var path := paths[k];
      if path in configs {
        var todo := configs[path].contexts;
        while todo != {}
          invariant todo <= configs[path].contexts
          invariant forall c :: c in configs[path].contexts - todo ==> !Registered(registry, Entry(path, c))
          decreases todo
        {
          var name :| name in todo;
          entry := Entry(path, name);
          var found := LookUp(registry, entry);
          if found.Some? {
            assert HasContext(registry, configs, path, name);
            assert Usable(registry, configs, path);
            return found.value, entry, true;
          }
          todo := todo - {name};
        }
      }
    }
    return "", Entry("", ""), false;
  }

  /** A registry built from the files has a context to start in exactly when it is not empty. */
  lemma BuiltRegistryIsUsable(disk: Disk, paths: seq<string>, registry: Registry, configs: Configs)
    requires Loads(disk, paths, configs) && Matches(registry, configs)
    ensures registry != map[] <==> exists p :: p in paths && Usable(registry, configs, p)
  {
    if registry != map[] {
      var n :| n in registry;
      var e := registry[n];
      assert Registered(registry, Entry(e.sourceFile, e.inFileName));
      assert HasContext(registry, configs, e.sourceFile, e.inFileName);
      assert Usable(registry, configs, e.sourceFile);
    }
  }

  // Refreshing.

  /** A map that other readers may hold a reference to. */
  class Table<V> {
    var m: map<string, V>

    constructor (contents: map<string, V>)
      ensures m == contents
    {
      m := contents;
    }
  }

  /** The registry with the parsed files and the times it was made from. */
  datatype Index = Index(registry: Registry, configs: Configs, mtimes: Mtimes)

  ghost predicate Tracked(ix: Index, path: string) {
    path in ix.mtimes || exists n :: n in ix.registry && ix.registry[n].sourceFile == path
  }

  predicate Unchanged(ix: Index, disk: Disk, path: string) {
    path in disk && path in ix.mtimes && ix.mtimes[path] == disk[path].mtime
  }

  /** The file is there but is not read again, or cannot be. */
  predicate Stands(ix: Index, disk: Disk, path: string) {
    path in disk && (Unchanged(ix, disk, path) || disk[path].parsed.None?)
  }

  /** What a refresh leaves registered for a tracked file: nothing if the file is gone, what
      was there if its time has not moved or it does not parse, else what it says now. */
  ghost predicate Keeps(ix: Index, disk: Disk, path: string, c: string) {
    && path in disk
    && if Stands(ix, disk, path) then Registered(ix.registry, Entry(path, c))
       else c in disk[path].parsed.value.contexts
  }

  /** A refresh as a whole, on any inputs: the right contexts, under unchanged names where
      they survive, still injective, and a cache that matches the files read. */
  ghost predicate Refreshed(ix: Index, disk: Disk, ix': Index) {
    && (forall p, c :: Registered(ix'.registry, Entry(p, c)) <==> Tracked(ix, p) && Keeps(ix, disk, p, c))
    && SurvivorsKeepNames(ix.registry, ix'.registry)
    && (Injective(ix.registry) ==> Injective(ix'.registry))
    && (forall p :: Tracked(ix, p) ==> FileRefreshed(ix, disk, ix'.configs, ix'.mtimes, p))
    && (forall p :: !Tracked(ix, p) ==> FileSame(ix, ix'.configs, ix'.mtimes, p))
  }

  ghost predicate SurvivorsKeepNames(registry: Registry, registry': Registry) {
    forall n :: n in registry && Registered(registry', registry[n]) ==> n in registry' && registry'[n] == registry[n]
  }

  predicate SameAt<V(==)>(m: map<string, V>, m': map<string, V>, k: string) {
    (k in m <==> k in m') && (k in m ==> m'[k] == m[k])
  }

  predicate FileSame(ix: Index, nc: Configs, nm: Mtimes, p: string) {
    SameAt(ix.configs, nc, p) && SameAt(ix.mtimes, nm, p)
  }

  predicate FileRefreshed(ix: Index, disk: Disk, nc: Configs, nm: Mtimes, p: string) {
    if p !in disk then p !in nc && p !in nm
    else if Stands(ix, disk, p) then FileSame(ix, nc, nm, p)
    else p in nc && nc[p] == disk[p].parsed.value && p in nm && nm[p] == disk[p].mtime
  }

  /** The file's names whose context is gone are dropped. */
  method DropDead(registry: Registry, names: set<string>, path: string, live: set<string>) returns (r: Registry)
    requires forall n :: n in names <==> n in registry && registry[n].sourceFile == path
    ensures r == map n | n in registry && (n !in names || registry[n].inFileName in live) :: registry[n]
  {
    r := registry;
    var todo := names;
    while todo != {}
      invariant todo <= names
      invariant r == map n | n in registry && (n !in names - todo || registry[n].inFileName in live) :: registry[n]
      decreases todo
    {
      var n :| n in todo;
      todo := todo - {n};
      if r[n].inFileName !in live {
        r := r - {n};
      }
    }
  }

  method AlreadyNamed(registry: Registry, names: set<string>, e: Entry) returns (already: bool)
    ensures already <==> exists n :: n in names && n in registry && registry[n] == e
  {
    var todo := names;
    while todo != {}
      invariant todo <= names
      invariant forall n :: n in names - todo ==> !(n in registry && registry[n] == e)
      decreases todo
    {
      var n :| n in todo;
      if n in registry && registry[n] == e {
        return true;
      }
      todo := todo - {n};
    }
    return false;
  }

  /** What the rewriting of one file has done once the contexts outside `todo` are handled. */
  ghost predicate Reconciled(registry: Registry, path: string, live: set<string>, todo: set<string>, r: Registry) {
    && (forall p, c :: Registered(r, Entry(p, c)) <==>
          if p == path then c in live && (c in todo ==> Registered(registry, Entry(p, c)))
              else Registered(registry, Entry(p, c)))
    && (forall n :: n in registry && (registry[n].sourceFile == path ==> registry[n].inFileName in live) ==>
          n in r && r[n] == registry[n])
    && (forall n :: n in r && r[n].sourceFile != path ==> n in registry && registry[n] == r[n])
    && (Injective(registry) ==> Injective(r))
  }

  lemma DropDeadReconciles(registry: Registry, path: string, live: set<string>, r: Registry)
    requires r == map n | n in registry
             && (registry[n].sourceFile != path || registry[n].inFileName in live) :: registry[n]
    ensures Reconciled(registry, path, live, live, r)
  {
    forall p, c ensures Registered(r, Entry(p, c)) <==>
                        Registered(registry, Entry(p, c)) && (p == path ==> c in live) {
      if n :| n in registry && registry[n] == Entry(p, c) {
        assert (p == path ==> c in live) ==> n in r && r[n] == Entry(p, c);
      }
    }
  }

  lemma ReconcileOne(registry: Registry, path: string, live: set<string>, todo: set<string>, r: Registry, c: string,
      q: string)
    requires Reconciled(registry, path, live, todo, r) && c in todo && todo <= live
    ensures Registered(r, Entry(path, c)) ==> Reconciled(registry, path, live, todo - {c}, r)
    ensures !Registered(r, Entry(path, c)) && q !in r ==>
            Reconciled(registry, path, live, todo - {c}, r[q := Entry(path, c)])
  {
    if !Registered(r, Entry(path, c)) && q !in r {
      RegisterKeeps(r, q, Entry(path, c));
    }
  }

  lemma AlreadyIffRegistered(registry: Registry, names: set<string>, path: string, live: set<string>,
      todo: set<string>, r: Registry, c: string)
    requires forall n :: n in names <==> n in registry && registry[n].sourceFile == path
    requires Reconciled(registry, path, live, todo, r) && c in todo && todo <= live
    ensures Registered(r, Entry(path, c)) <==> exists n :: n in names && n in r && r[n] == Entry(path, c)
  {
    if Registered(r, Entry(path, c)) {
      assert Registered(registry, Entry(path, c));
      var n :| n in registry && registry[n] == Entry(path, c);
      assert n in r && r[n] == Entry(path, c);
    }
  }

  /** Rewrites the entries of one file after a new parse: drops the names whose context is
      gone, keeps the others, and registers what is new. `names` are the file's names. */
  method ReconcileFile(registry: Registry, names: set<string>, path: string, cfg: Config, sourceLabel: string -> string)
    returns (r: Registry)
    requires forall n :: n in names <==> n in registry && registry[n].sourceFile == path
    ensures Reconciled(registry, path, cfg.contexts, {}, r)
    ensures NamesFit(registry, sourceLabel) ==> NamesFit(r, sourceLabel)
  {
    hide Reconciled, Injective, Registered, NamesFit;
    r := DropDead(registry, names, path, cfg.contexts);
    DropDeadReconciles(registry, path, cfg.contexts, r);
    if NamesFit(registry, sourceLabel) { FewerNamesFit(registry, r, sourceLabel); }
    var todo := cfg.contexts;
    while todo != {}
      invariant todo <= cfg.contexts && Reconciled(registry, path, cfg.contexts, todo, r)
      invariant NamesFit(registry, sourceLabel) ==> NamesFit(r, sourceLabel)
      decreases todo
    {
      var name :| name in todo;
      AlreadyIffRegistered(registry, names, path, cfg.contexts, todo, r, name);
      var already := AlreadyNamed(r, names, Entry(path, name));
      if already {
        ReconcileOne(registry, path, cfg.contexts, todo, r, name, "");
      } else {
        var q := QualifyContextName(r, name, sourceLabel(path));
        ReconcileOne(registry, path, cfg.contexts, todo, r, name, q);
        NewNameFits(r, name, path, sourceLabel, q);
        r := r[q := Entry(path, name)];
      }
      todo := todo - {name};
    }
  }

  /** Those of the names `among` that belong to the file. */
  function NamesOf(registry: Registry, among: set<string>, path: string): set<string> {
    set n | n in among && n in registry && registry[n].sourceFile == path
  }

  lemma NamesOfNone(registry: Registry, among: set<string>, p: string)
    requires among == {}
    ensures NamesOf(registry, among, p) == {}
  {
  }

  lemma NamesOfGrows(registry: Registry, among: set<string>, n: string)
    requires n in registry
    ensures forall p :: NamesOf(registry, among + {n}, p) ==
                        NamesOf(registry, among, p) + if registry[n].sourceFile == p then {n} else {}
  {
  }

  lemma NamesOfMeaning(registry: Registry, path: string, names: set<string>)
    requires names == NamesOf(registry, registry.Keys, path)
    ensures forall n :: n in names <==> n in registry && registry[n].sourceFile == path
    ensures names == {} <==> forall n :: n in registry ==> registry[n].sourceFile != path
  {
    if names == {} {
      forall n | n in registry ensures registry[n].sourceFile != path {
        assert n !in names;
      }
    }
  }

  /** The names of each tracked file: files of the registry, and files known only by time. */
  method GroupByFile(ghost ix: Index, registry: Registry, mtimes: Mtimes) returns (byFile: map<string, set<string>>)
    requires ix.registry == registry && ix.mtimes == mtimes
    ensures forall p :: p in byFile <==> Tracked(ix, p)
    ensures forall p :: p in byFile ==> byFile[p] == NamesOf(registry, registry.Keys, p)
  {
    hide NamesOf;
    byFile := map[];
    var todo := registry.Keys;
    forall p ensures NamesOf(registry, registry.Keys - todo, p) == {} {
      NamesOfNone(registry, registry.Keys - todo, p);
    }
    while todo != {}
      invariant todo <= registry.Keys
      invariant forall p :: p in byFile <==> NamesOf(registry, registry.Keys - todo, p) != {}
      invariant forall p :: p in byFile ==> byFile[p] == NamesOf(registry, registry.Keys - todo, p)
      decreases todo
    {
      var n :| n in todo;
      var file := registry[n].sourceFile;
      NamesOfGrows(registry, registry.Keys - todo, n);
      assert registry.Keys - (todo - {n}) == registry.Keys - todo + {n};
      todo := todo - {n};
      byFile := byFile[file := (if file in byFile then byFile[file] else {}) + {n}];
    }
    assert registry.Keys - todo == registry.Keys;
    forall p {
      NamesOfMeaning(registry, p, NamesOf(registry, registry.Keys, p));
    }
    var paths := mtimes.Keys;
    while paths != {}
      invariant paths <= mtimes.Keys
      invariant forall p :: p in byFile <==> NamesOf(registry, registry.Keys, p) != {} || p in mtimes.Keys - paths
      invariant forall p :: p in byFile ==> byFile[p] == NamesOf(registry, registry.Keys, p)
      decreases paths
    {
      var p :| p in paths;
      paths := paths - {p};
      if p !in byFile {
        byFile := byFile[p := {}];
      }
    }
  }

  /** The registry half of a refresh that has handled the files in `done`. */
  ghost predicate PartlyRefreshed(ix: Index, disk: Disk, done: set<string>, r: Registry) {
    && (forall p, c :: Registered(r, Entry(p, c)) <==>
          if p in done then Keeps(ix, disk, p, c) else Registered(ix.registry, Entry(p, c)))
    && SurvivorsKeepNames(ix.registry, r)
    && (forall n :: n in r && r[n].sourceFile !in done ==> n in ix.registry && ix.registry[n] == r[n])
    && (Injective(ix.registry) ==> Injective(r))
  }

  /** The cache half. */
  ghost predicate PartlyCached(ix: Index, disk: Disk, done: set<string>, nc: Configs, nm: Mtimes) {
    forall p :: if p in done then FileRefreshed(ix, disk, nc, nm, p) else FileSame(ix, nc, nm, p)
  }

  lemma PartlyNames(ix: Index, disk: Disk, done: set<string>, r: Registry, path: string)
    requires PartlyRefreshed(ix, disk, done, r) && path !in done
    ensures NamesOf(ix.registry, ix.registry.Keys, path) == NamesOf(r, r.Keys, path)
    ensures forall n :: n in NamesOf(ix.registry, ix.registry.Keys, path) ==> r[n] == ix.registry[n]
  {
    forall n | n in ix.registry && ix.registry[n].sourceFile == path ensures n in r && r[n] == ix.registry[n] {
      assert Registered(ix.registry, Entry(path, ix.registry[n].inFileName));
      assert Registered(r, Entry(path, ix.registry[n].inFileName));
    }
  }

  lemma DropNames(r: Registry, path: string, names: set<string>)
    requires names == NamesOf(r, r.Keys, path)
    ensures forall p, c :: Registered(r - names, Entry(p, c)) <==> p != path && Registered(r, Entry(p, c))
    ensures forall n :: n in r - names <==> n in r && r[n].sourceFile != path
    ensures Injective(r) ==> Injective(r - names)
  {
    var r' := r - names;
    forall p, c ensures Registered(r', Entry(p, c)) <==> p != path && Registered(r, Entry(p, c)) {
      if n :| n in r && r[n] == Entry(p, c) {
        assert p != path ==> n in r' && r'[n] == Entry(p, c);
      }
    }
  }

  lemma RefreshGone(ix: Index, disk: Disk, done: set<string>, r: Registry, path: string, names: set<string>)
    requires PartlyRefreshed(ix, disk, done, r)
    requires path !in done && path !in disk && names == NamesOf(r, r.Keys, path)
    ensures PartlyRefreshed(ix, disk, done + {path}, r - names)
  {
    DropNames(r, path, names);
    var r' := r - names;
    assert SurvivorsKeepNames(ix.registry, r') by {
      hide Injective;
      forall n | n in ix.registry && Registered(r', ix.registry[n]) ensures n in r' && r'[n] == ix.registry[n] {
        var e := ix.registry[n];
        assert e == Entry(e.sourceFile, e.inFileName);
        assert Registered(r, e);
      }
    }
    hide NamesOf, Injective, Registered, SurvivorsKeepNames;
    assert forall p, c :: Registered(r', Entry(p, c)) <==>
             if p in done + {path} then Keeps(ix, disk, p, c) else Registered(ix.registry, Entry(p, c));
  }

  lemma RefreshSame(ix: Index, disk: Disk, done: set<string>, r: Registry, path: string)
    requires PartlyRefreshed(ix, disk, done, r)
    requires path !in done && Stands(ix, disk, path)
    ensures PartlyRefreshed(ix, disk, done + {path}, r)
  {
    hide Injective, Registered, SurvivorsKeepNames;
  }

  lemma RefreshParsed(ix: Index, disk: Disk, done: set<string>, r: Registry, path: string, r': Registry)
    requires PartlyRefreshed(ix, disk, done, r) && path !in done
    requires path in disk && !Stands(ix, disk, path)
    requires Reconciled(r, path, disk[path].parsed.value.contexts, {}, r')
    ensures PartlyRefreshed(ix, disk, done + {path}, r')
  {
    PartlyNames(ix, disk, done, r, path);
    hide Injective, Registered, SurvivorsKeepNames;
    assert SurvivorsKeepNames(ix.registry, r) && SurvivorsKeepNames(ix.registry, r') by {
      ReconciledSurvivors(ix, disk, done, r, path, r');
    }
    assert forall p, c :: Registered(r', Entry(p, c)) <==>
             if p in done + {path} then Keeps(ix, disk, p, c) else Registered(ix.registry, Entry(p, c));
  }

  lemma ReconciledSurvivors(ix: Index, disk: Disk, done: set<string>, r: Registry, path: string, r': Registry)
    requires PartlyRefreshed(ix, disk, done, r) && path !in done
    requires path in disk && !Stands(ix, disk, path)
    requires Reconciled(r, path, disk[path].parsed.value.contexts, {}, r')
    ensures SurvivorsKeepNames(ix.registry, r')
  {
    PartlyNames(ix, disk, done, r, path);
    hide Injective, Registered;
    forall n | n in ix.registry && Registered(r', ix.registry[n]) ensures n in r' && r'[n] == ix.registry[n] {
      var e := ix.registry[n];
      assert e == Entry(e.sourceFile, e.inFileName);
      if e.sourceFile == path {
        assert n in NamesOf(ix.registry, ix.registry.Keys, path);
        assert r[n] == e;
      } else {
        assert Registered(r, e);
      }
    }
  }

  /** One tracked file: says whether anything changes, and to what. */
  method RefreshFile(ghost ix: Index, ghost done: set<string>, nr: Registry, nc: Configs, nm: Mtimes, mtimes: Mtimes,
      disk: Disk,
                     path: string, names: set<string>, sourceLabel: string -> string)
    returns (touched: bool, nr': Registry, nc': Configs, nm': Mtimes)
    requires PartlyRefreshed(ix, disk, done, nr) && PartlyCached(ix, disk, done, nc, nm)
    requires mtimes == ix.mtimes && path !in done && names == NamesOf(ix.registry, ix.registry.Keys, path)
    ensures PartlyRefreshed(ix, disk, done + {path}, nr') && PartlyCached(ix, disk, done + {path}, nc', nm')
    ensures !touched ==> nr' == nr && nc' == nc && nm' == nm
    ensures NamesFit(nr, sourceLabel) ==> NamesFit(nr', sourceLabel)
  {
    hide NamesFit;
    touched, nr', nc', nm' := true, nr, nc, nm;
    PartlyNames(ix, disk, done, nr, path);
    if path !in disk {
      RefreshGone(ix, disk, done, nr, path, names);
      CacheGone(ix, disk, done, nc, nm, path);
      if NamesFit(nr, sourceLabel) { FewerNamesFit(nr, nr - names, sourceLabel); }
      return true, nr - names, nc - {path}, nm - {path};
    }
    StandsIff(ix, disk, path);
    hide PartlyRefreshed, PartlyCached, Stands, NamesOf, Reconciled;
    if path in mtimes && mtimes[path] == disk[path].mtime {
      RefreshSame(ix, disk, done, nr, path);
      CacheSame(ix, disk, done, nc, nm, path);
      return false, nr, nc, nm;
    }
    if disk[path].parsed.None? {
      RefreshSame(ix, disk, done, nr, path);
      CacheSame(ix, disk, done, nc, nm, path);
      return false, nr, nc, nm;
    }
    var cfg := disk[path].parsed.value;
    NamesOfMeaning(nr, path, names);
    nr' := ReconcileFile(nr, names, path, cfg, sourceLabel);
    RefreshParsed(ix, disk, done, nr, path, nr');
    CacheParsed(ix, disk, done, nc, nm, path);
    nc' := nc[path := cfg];
    nm' := nm[path := disk[path].mtime];
  }

  /** Reconciles the registry with the disk, touching only files that are gone or whose time
      has moved. It has no `modifies` clause: the tables it is given are never written to, and
      when something has changed the tables it returns are new ones. */
  method RefreshContextRegistry(registry: Table?<Entry>, configs: Table<Config>, mtimes: Table?<int>, disk: Disk,
      sourceLabel: string -> string)
    returns (newRegistry: Table?<Entry>, newConfigs: Table<Config>, newMtimes: Table?<int>, changed: bool)
    ensures registry == null || mtimes == null ==> !changed
    ensures !changed ==> newRegistry == registry && newConfigs == configs && newMtimes == mtimes
    ensures changed ==>
            newRegistry != null && newMtimes != null && fresh(newRegistry) && fresh(newConfigs) && fresh(newMtimes)
    ensures registry != null && mtimes != null ==>
              newRegistry != null && newMtimes != null
              && Refreshed(Index(registry.m, configs.m, mtimes.m), disk,
                 Index(newRegistry.m, newConfigs.m, newMtimes.m))
              && (NamesFit(registry.m, sourceLabel) ==> NamesFit(newRegistry.m, sourceLabel))
  {
    if registry == null || mtimes == null {
      return registry, configs, mtimes, false;
    }
    newRegistry, newConfigs, newMtimes, changed := RefreshTables(registry, configs, mtimes, disk, sourceLabel);
  }

  method RefreshTables(registry: Table<Entry>, configs: Table<Config>, mtimes: Table<int>, disk: Disk,
      sourceLabel: string -> string)
    returns (newRegistry: Table<Entry>, newConfigs: Table<Config>, newMtimes: Table<int>, changed: bool)
    ensures !changed ==> newRegistry == registry && newConfigs == configs && newMtimes == mtimes
    ensures changed ==> fresh(newRegistry) && fresh(newConfigs) && fresh(newMtimes)
    ensures Refreshed(Index(registry.m, configs.m, mtimes.m), disk, Index(newRegistry.m, newConfigs.m, newMtimes.m))
    ensures NamesFit(registry.m, sourceLabel) ==> NamesFit(newRegistry.m, sourceLabel)
  {
    hide *;
    newRegistry, newConfigs, newMtimes, changed := registry, configs, mtimes, false;
    ghost var ix := Index(registry.m, configs.m, mtimes.m);
    var byFile := GroupByFile(ix, registry.m, mtimes.m);
    var todo := byFile.Keys;
    NothingRefreshed(ix, disk);
    assert byFile.Keys - todo == {};
    while todo != {}
      invariant todo <= byFile.Keys
      invariant !changed ==> newRegistry == registry && newConfigs == configs && newMtimes == mtimes
      invariant changed ==> fresh(newRegistry) && fresh(newConfigs) && fresh(newMtimes)
      invariant PartlyRefreshed(ix, disk, byFile.Keys - todo, newRegistry.m)
      invariant NamesFit(ix.registry, sourceLabel) ==> NamesFit(newRegistry.m, sourceLabel)
      invariant PartlyCached(ix, disk, byFile.Keys - todo, newConfigs.m, newMtimes.m)
      decreases todo
    {
      var path :| path in todo;
      ghost var done := byFile.Keys - todo;
      todo := todo - {path};
      assert byFile.Keys - todo == done + {path};
      var touched, nr, nc, nm :=
          RefreshFile(ix, done, newRegistry.m, newConfigs.m, newMtimes.m, mtimes.m, disk, path, byFile[path],
          sourceLabel);
      if touched {
        newRegistry, newConfigs, newMtimes := CloneOnce(newRegistry, newConfigs, newMtimes, changed);
        changed := true;
        newRegistry.m := nr;
        newConfigs.m := nc;
        newMtimes.m := nm;
      }
    }
    assert byFile.Keys - todo == byFile.Keys;
    AllRefreshed(ix, disk, byFile.Keys, Index(newRegistry.m, newConfigs.m, newMtimes.m));
  }

  /** Copies the tables before the first change, and only then. */
  method CloneOnce(registry: Table<Entry>, configs: Table<Config>, mtimes: Table<int>, changed: bool)
    returns (nr: Table<Entry>, nc: Table<Config>, nm: Table<int>)
    ensures if changed then nr == registry && nc == configs && nm == mtimes else fresh(nr) && fresh(nc) && fresh(nm)
    ensures nr.m == registry.m && nc.m == configs.m && nm.m == mtimes.m
  {
    nr, nc, nm := registry, configs, mtimes;
    if !changed {
      nr := new Table(registry.m);
      nc := new Table(configs.m);
      nm := new Table(mtimes.m);
    }
  }

  lemma StandsIff(ix: Index, disk: Disk, path: string)
    requires path in disk
    ensures Stands(ix, disk, path) <==>
            (path in ix.mtimes && ix.mtimes[path] == disk[path].mtime) || disk[path].parsed.None?
  {
  }

  lemma CacheSame(ix: Index, disk: Disk, done: set<string>, nc: Configs, nm: Mtimes, path: string)
    requires PartlyCached(ix, disk, done, nc, nm) && path !in done && path in disk && Stands(ix, disk, path)
    ensures PartlyCached(ix, disk, done + {path}, nc, nm)
  {
  }

  lemma CacheGone(ix: Index, disk: Disk, done: set<string>, nc: Configs, nm: Mtimes, path: string)
    requires PartlyCached(ix, disk, done, nc, nm) && path !in done && path !in disk
    ensures PartlyCached(ix, disk, done + {path}, nc - {path}, nm - {path})
  {
  }

  lemma CacheParsed(ix: Index, disk: Disk, done: set<string>, nc: Configs, nm: Mtimes, path: string)
    requires PartlyCached(ix, disk, done, nc, nm) && path !in done && path in disk && !Stands(ix, disk, path)
    ensures PartlyCached(ix, disk, done + {path}, nc[path := disk[path].parsed.value], nm[path := disk[path].mtime])
  {
  }

  lemma NothingRefreshed(ix: Index, disk: Disk)
    ensures PartlyRefreshed(ix, disk, {}, ix.registry) && PartlyCached(ix, disk, {}, ix.configs, ix.mtimes)
  {
  }

  lemma AllRefreshed(ix: Index, disk: Disk, done: set<string>, ix': Index)
    requires PartlyRefreshed(ix, disk, done, ix'.registry) && PartlyCached(ix, disk, done, ix'.configs, ix'.mtimes)
    requires forall p :: p in done <==> Tracked(ix, p)
    ensures Refreshed(ix, disk, ix')
  {
    forall p, c | !Tracked(ix, p) ensures !Registered(ix.registry, Entry(p, c)) {
    }
  }

  /** A refresh preserves the match between registry and parsed files. */
  lemma RefreshMatches(ix: Index, disk: Disk, ix': Index)
    requires Refreshed(ix, disk, ix') && Matches(ix.registry, ix.configs)
    ensures Matches(ix'.registry, ix'.configs)
  {
    forall p, c ensures Registered(ix'.registry, Entry(p, c)) <==> p in ix'.configs && c in ix'.configs[p].contexts {
      assert Registered(ix.registry, Entry(p, c)) ==> Tracked(ix, p);
      hide Registered, Injective, Tracked;
      assert Tracked(ix, p) ==> FileRefreshed(ix, disk, ix'.configs, ix'.mtimes, p);
      assert !Tracked(ix, p) ==> FileSame(ix, ix'.configs, ix'.mtimes, p);
    }
  }

  /** Equal times mean equal content. */
  ghost predicate TimesTell(ix: Index, disk: Disk) {
    forall p :: p in disk && Unchanged(ix, disk, p) ==> p in ix.configs && disk[p].parsed == Some(ix.configs[p])
  }

  /** Main result: if equal times mean equal content and every tracked file on disk parses,
      the refreshed registry holds exactly what a rebuild from those files would hold. */
  lemma RefreshAgreesWithRebuild(ix: Index, disk: Disk, ix': Index, paths: seq<string>, built: Registry,
      builtConfigs: Configs, e: Entry)
    requires Refreshed(ix, disk, ix') && Matches(ix.registry, ix.configs)
    requires TimesTell(ix, disk)
    requires forall p :: Tracked(ix, p) && p in disk ==> disk[p].parsed.Some?
    requires forall p :: p in paths <==> Tracked(ix, p) && p in disk
    requires Loads(disk, paths, builtConfigs) && Matches(built, builtConfigs)
    ensures Registered(ix'.registry, e) <==> Registered(built, e)
  {
    hide Registered, Injective, Tracked, SurvivorsKeepNames;
    var p, c := e.sourceFile, e.inFileName;
    assert e == Entry(p, c);
    assert Registered(ix.registry, Entry(p, c)) <==> p in ix.configs && c in ix.configs[p].contexts;
  }
}
