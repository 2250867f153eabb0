/** The package state around the context registry: starting up, merging the kubeconfig of a
    workload cluster, and publishing a refreshed registry. */
module ContextClient {
  import opened Ordering
  import opened ContextRegistry

  /** What the file system answers during one merge. `tmpPath` is the name given to a new
      temporary file, if one can be created. */
  datatype MergeIO = MergeIO(overwriteOk: bool, diskAfterOverwrite: Disk, tmpPath: Option<string>, writeOk: bool,
      diskAfterWrite: Disk)

  datatype Merged = Failed | Merged(qName: string, path: string)

  /** The new kubeconfig parses and has the context that is asked for. */
  predicate Accepted(newConfig: Option<Config>, name: string) {
    newConfig.Some? && name in newConfig.value.contexts
  }

  /** The file of an earlier merge is overwritten and parses again. */
  predicate Rewrites(capi: map<string, string>, name: string, io: MergeIO) {
    name in capi && io.overwriteOk && LoadFromFile(io.diskAfterOverwrite, capi[name]).Some?
  }

  /** The parsed files after the fast path. */
  function CacheAfter(configs: Configs, capi: map<string, string>, name: string, io: MergeIO): Configs {
    if Rewrites(capi, name, io) then configs[capi[name] := LoadFromFile(io.diskAfterOverwrite, capi[name]).value]
        else configs
  }

  /** Their times after it. */
  function TimesAfter(mtimes: Mtimes, capi: map<string, string>, name: string, io: MergeIO): Mtimes {
    if Rewrites(capi, name, io) then mtimes[capi[name] := io.diskAfterOverwrite[capi[name]].mtime] else mtimes
  }

  function ContextsOf(configs: Configs, path: string): set<string> {
    if path in configs then configs[path].contexts else {}
  }

  /** The overwritten file has the contexts that were known for it. */
  predicate InStep(configs: Configs, capi: map<string, string>, name: string, io: MergeIO) {
    Rewrites(capi, name, io) ==>
      LoadFromFile(io.diskAfterOverwrite, capi[name]).value.contexts == ContextsOf(configs, capi[name])
  }

  /** Some name other than the empty one stands for the entry. */
  ghost predicate Named(registry: Registry, e: Entry) {
    exists n :: n != "" && n in registry && registry[n] == e
  }

  /** A new parse of one file keeps the registry in step exactly when it has the contexts that were
      known for the file, which are none if the file had been dropped. */
  lemma OverwriteMatchesIff(registry: Registry, configs: Configs, path: string, cfg: Config)
    requires Matches(registry, configs)
    ensures Matches(registry, configs[path := cfg]) <==> cfg.contexts == ContextsOf(configs, path)
  {
    hide Registered;
    var configs' := configs[path := cfg];
    if Matches(registry, configs') {
      forall c ensures c in cfg.contexts <==> c in ContextsOf(configs, path) {
        assert Registered(registry, Entry(path, c)) <==> path in configs' && c in configs'[path].contexts;
        assert Registered(registry, Entry(path, c)) <==> path in configs && c in configs[path].contexts;
      }
    }
  }

  lemma CacheMatchesIff(registry: Registry, configs: Configs, capi: map<string, string>, name: string, io: MergeIO)
    requires Matches(registry, configs)
    ensures Matches(registry, CacheAfter(configs, capi, name, io)) <==> InStep(configs, capi, name, io)
  {
    hide Matches;
    if Rewrites(capi, name, io) {
      OverwriteMatchesIff(registry, configs, capi[name], LoadFromFile(io.diskAfterOverwrite, capi[name]).value);
    }
  }

  /** A refresh leaves the entries of a file alone whose time has not moved, whatever it says. */
  lemma OverwriteNotReconciled(ix: Index, disk: Disk, ix': Index, path: string, c: string)
    requires Refreshed(ix, disk, ix') && Unchanged(ix, disk, path)
    ensures Registered(ix'.registry, Entry(path, c)) <==> Registered(ix.registry, Entry(path, c))
  {
    assert Tracked(ix, path);
  }

  /** Main result: so a refresh after the fast path does not repair what it put out of step. The
      merge has recorded the new time with the new content, the file counts as unchanged, and the
      refreshed registry matches the refreshed files exactly when the merge had kept them in step. */
  lemma RefreshAfterMerge(registry: Registry, configs: Configs, mtimes: Mtimes, capi: map<string, string>, name: string,
      io: MergeIO, ix': Index)
    requires Matches(registry, configs) && Rewrites(capi, name, io)
    requires var ix := Index(registry, CacheAfter(configs, capi, name, io), TimesAfter(mtimes, capi, name, io));
      Refreshed(ix, io.diskAfterOverwrite, ix')
    ensures Matches(ix'.registry, ix'.configs) <==> InStep(configs, capi, name, io)
  {
    var path, disk := capi[name], io.diskAfterOverwrite;
    var cfg := LoadFromFile(disk, path).value;
    var ix := Index(registry, CacheAfter(configs, capi, name, io), TimesAfter(mtimes, capi, name, io));
    assert Unchanged(ix, disk, path) && Tracked(ix, path);
    CacheMatchesIff(registry, configs, capi, name, io);
    if InStep(configs, capi, name, io) {
      RefreshMatches(ix, disk, ix');
    } else if Matches(ix'.registry, ix'.configs) {
      assert FileRefreshed(ix, disk, ix'.configs, ix'.mtimes, path);
      assert path in ix'.configs && ix'.configs[path] == cfg;
      hide Registered, Refreshed;
      forall c ensures c in cfg.contexts <==> c in ContextsOf(configs, path) {
        OverwriteNotReconciled(ix, disk, ix', path, c);
        assert Registered(ix'.registry, Entry(path, c)) <==> path in ix'.configs && c in ix'.configs[path].contexts;
        assert Registered(registry, Entry(path, c)) <==> path in configs && c in configs[path].contexts;
      }
    }
  }

  /** What is recorded of the files is what was recorded before and the new file; in single-file mode
      all are read anew. */
  ghost predicate FileAdded(single: bool, configs: Configs, mtimes: Mtimes, disk: Disk, paths: seq<string>,
                            path: string, configs': Configs, mtimes': Mtimes) {
    if single then Loads(disk, paths, configs') && mtimes' == TimesOf(disk, paths)
    else
      && path in disk && disk[path].parsed.Some?
      && configs' == configs[path := disk[path].parsed.value]
      && mtimes' == mtimes[path := disk[path].mtime]
  }

  /** What start-up leaves: every file as it parses, names that fit, plain ones for whoever comes first,
      and the context to start in. */
  ghost predicate IsStartUp(disk: Disk, paths: seq<string>, sourceLabel: string -> string, registry: Registry,
                            configs: Configs, start: Entry) {
    && Loads(disk, paths, configs) && InitialChoice(paths, registry, configs, start)
    && NamesFit(registry, sourceLabel) && PlainNamesTaken(registry) && FirstCome(disk, paths, registry)
  }

  lemma Started(disk: Disk, paths: seq<string>, sourceLabel: string -> string, registry: Registry, configs: Configs,
                start: Entry)
    requires Loads(disk, paths, configs) && InitialChoice(paths, registry, configs, start)
    requires NamesFit(registry, sourceLabel) && PlainNamesTaken(registry) && FirstCome(disk, paths, registry)
    ensures IsStartUp(disk, paths, sourceLabel, registry, configs, start)
  {
  }

  class Client {
    var contextRegistry: Table?<Entry>
    var perFileConfigs: Table<Config>
    var perFileMtimes: Table?<int>
    var kubeconfigPath: string
    var kubeconfigPaths: seq<string>
    var capiKubeconfigs: map<string, string>
    var contextName: string

    /** Single-file mode. */
    constructor (path: string)
      ensures Valid() && contextRegistry == null && kubeconfigPath == path
    {
      contextRegistry, perFileMtimes := null, null;
      perFileConfigs := new Table(map[]);
      kubeconfigPath, kubeconfigPaths, capiKubeconfigs, contextName := path, [], map[], "";
    }

    ghost predicate Valid()
      reads this, contextRegistry
    {
      && (contextRegistry != null ==> Injective(contextRegistry.m))
      && (contextRegistry == null || contextRegistry as object != perFileConfigs as object)
      && (contextRegistry == null || perFileMtimes == null || contextRegistry as object != perFileMtimes as object)
      && (perFileMtimes == null || perFileMtimes as object != perFileConfigs as object)
    }

    ghost predicate MatchesFiles()
      reads this, contextRegistry, perFileConfigs
    {
      contextRegistry != null ==> Matches(contextRegistry.m, perFileConfigs.m)
    }

    /** No state refers to the path yet. */
    ghost predicate Unknown(path: string)
      reads this, contextRegistry, perFileConfigs
    {
      && (contextRegistry != null ==> forall n :: n in contextRegistry.m ==> contextRegistry.m[n].sourceFile != path)
      && path !in perFileConfigs.m && path != kubeconfigPath && path !in capiKubeconfigs.Values
    }

    /** Isolated-load mode: fails only when no file has a context. */
    method SetupIsolatedLoad(disk: Disk, paths: seq<string>, sourceLabel: string -> string)
      returns (start: Option<Entry>)
      requires Distinct(paths)
      modifies this`contextRegistry, this`perFileConfigs, this`perFileMtimes, this`contextName
      ensures start.None? <==> forall p :: p in paths ==> !ListsContexts(disk, p)
      ensures start.Some? ==>
                && Valid() && MatchesFiles() && contextRegistry != null && fresh(contextRegistry)
                && contextName in contextRegistry.m && contextRegistry.m[contextName] == start.value
      ensures start.Some? ==>
                && IsStartUp(disk, paths, sourceLabel, contextRegistry.m, perFileConfigs.m, start.value)
                && perFileMtimes != null && perFileMtimes.m == TimesOf(disk, paths)
      ensures start.None? ==> unchanged(this)
    {
      hide Injective, Matches, Distinct, ListsContexts, IsStartUp, TimesOf;
      var registry, configs, qName, entry, ok := BuildAndPick(disk, paths, sourceLabel);
      if !ok {
        return None;
      }
      contextRegistry := new Table(registry);
      perFileConfigs := new Table(configs);
      perFileMtimes := new Table(TimesOf(disk, paths));
      contextName := qName;
      return Some(entry);
    }

    /** Reconciles with the disk and publishes. Tables that readers may have captured keep
        their contents. */
    method RefreshAndPublish(disk: Disk, sourceLabel: string -> string) returns (listed: set<string>)
      requires Valid()
      modifies this`contextRegistry, this`perFileConfigs, this`perFileMtimes
      ensures Valid() && (old(MatchesFiles()) ==> MatchesFiles())
      ensures contextRegistry == null <==> old(contextRegistry) == null
      ensures contextRegistry != null ==>
                && perFileMtimes != null
                && Refreshed(old(Index(contextRegistry.m, perFileConfigs.m,
                                       Times())), disk,
                             Index(contextRegistry.m, perFileConfigs.m, perFileMtimes.m))
                && (MatchesFiles() ==> listed == contextRegistry.m.Keys)
                && (NamesFit(old(contextRegistry.m), sourceLabel) ==> NamesFit(contextRegistry.m, sourceLabel))
    {
      hide Refreshed, Injective, Matches, NamesFit;
      listed := {};
      if contextRegistry == null {
        return;
      }
      if perFileMtimes == null {
        perFileMtimes := new Table(map[]);
      }
      ghost var ix := Index(contextRegistry.m, perFileConfigs.m, perFileMtimes.m);
      var newRegistry, newConfigs, newMtimes, changed :=
          RefreshContextRegistry(contextRegistry, perFileConfigs, perFileMtimes, disk, sourceLabel);
      if changed {
        contextRegistry, perFileConfigs, perFileMtimes := newRegistry, newConfigs, newMtimes;
      }
      var registry, configs := contextRegistry.m, perFileConfigs.m;
      RefreshInjective(ix, disk, Index(registry, configs, perFileMtimes.m));
      if Matches(ix.registry, ix.configs) {
        RefreshMatches(ix, disk, Index(registry, configs, perFileMtimes.m));
      }
      listed := set n | n in registry && registry[n].sourceFile in configs
                                      && registry[n].inFileName in configs[registry[n].sourceFile].contexts;
      if MatchesFiles() {
        AllListed(registry, configs);
      }
    }

    /** The first half of a context switch: resolve the name, load its file, look for the context. */
    method SwitchTarget(disk: Disk, name: string) returns (target: Option<Entry>)
      requires Valid()
      ensures target.Some? ==> target.value.inFileName in ContextsOnDisk(disk, target.value.sourceFile)
      ensures contextRegistry != null && target.Some? ==>
                && name in contextRegistry.m && contextRegistry.m[name] == target.value
                && forall n :: n in contextRegistry.m && contextRegistry.m[n] == target.value ==> n == name
      ensures contextRegistry != null && MatchesFiles() && AsParsed(disk) ==>
              (target.Some? <==> name in contextRegistry.m)
      ensures contextRegistry == null && target.Some? ==> target.value == Entry(kubeconfigPath, name)
      ensures contextRegistry == null ==>
              (target.Some? <==> kubeconfigPath != "" && name in ContextsOnDisk(disk, kubeconfigPath))
    {
      var entry := Entry(kubeconfigPath, name);
      if contextRegistry != null {
        if name !in contextRegistry.m {
          return None;
        }
        entry := contextRegistry.m[name];
        if MatchesFiles() {
          AllListed(contextRegistry.m, perFileConfigs.m);
        }
      } else if kubeconfigPath == "" {
        return None;
      }
      if entry.inFileName !in ContextsOnDisk(disk, entry.sourceFile) {
        return None;
      }
      return Some(entry);
    }

    /** The files still say what was parsed. */
    ghost predicate AsParsed(disk: Disk)
      reads this, perFileConfigs
    {
      forall p :: p in perFileConfigs.m ==> LoadFromFile(disk, p) == Some(perFileConfigs.m[p])
    }

    /** The fast path: the same context was merged before, so its file is overwritten. Cached
        content and time are written in place, into the tables readers may hold; the registry is
        not. It succeeds exactly when the file can be written and the registry still names the
        context. */
    method Overwrite(io: MergeIO, name: string) returns (r: Merged)
      requires Valid() && name in capiKubeconfigs
      modifies this`capiKubeconfigs, perFileConfigs, perFileMtimes
      ensures Valid()
      ensures contextRegistry != null ==> contextRegistry.m == old(contextRegistry.m)
      ensures perFileConfigs.m == CacheAfter(old(perFileConfigs.m), old(capiKubeconfigs), name, io)
      ensures perFileMtimes != null ==>
              perFileMtimes.m == TimesAfter(old(perFileMtimes.m), old(capiKubeconfigs), name, io)
      ensures capiKubeconfigs == if r.Failed? && io.overwriteOk then old(capiKubeconfigs) - {name}
              else old(capiKubeconfigs)
      ensures contextRegistry != null && old(MatchesFiles()) ==>
                (MatchesFiles() <==> InStep(old(perFileConfigs.m), old(capiKubeconfigs), name, io))
      ensures r.Merged? <==>
              io.overwriteOk && contextRegistry != null
              && Named(contextRegistry.m, Entry(old(capiKubeconfigs)[name], name))
      ensures r.Merged? ==>
                && r.path == old(capiKubeconfigs)[name]
                && r.qName in contextRegistry.m && contextRegistry.m[r.qName] == Entry(r.path, name)
    {
      hide Matches;
      var existing := capiKubeconfigs[name];
      if !io.overwriteOk {
        return Failed;
      }
      ghost var configs := perFileConfigs.m;
      var parsed := LoadFromFile(io.diskAfterOverwrite, existing);
      if parsed.Some? {
        perFileConfigs.m := perFileConfigs.m[existing := parsed.value];
        if perFileMtimes != null && existing in io.diskAfterOverwrite {
          perFileMtimes.m := perFileMtimes.m[existing := io.diskAfterOverwrite[existing].mtime];
        }
      }
      var qName := "";
      if contextRegistry != null {
        if Matches(contextRegistry.m, configs) {
          CacheMatchesIff(contextRegistry.m, configs, capiKubeconfigs, name, io);
        }
        qName := FindQualifiedNameForPath(contextRegistry.m, existing, name);
      }
      if qName == "" {
        capiKubeconfigs := capiKubeconfigs - {name};
        return Failed;
      }
      return Merged(qName, existing);
    }

    /** The fast path can answer. */
    ghost predicate CanReuse(name: string, io: MergeIO)
      reads this, contextRegistry
    {
      && name in capiKubeconfigs && io.overwriteOk && contextRegistry != null
      && Named(contextRegistry.m, Entry(capiKubeconfigs[name], name))
    }

    /** Registers the contexts of a new kubeconfig and says under which name the wanted one
        can be reached. Nothing is published unless that name resolves to the merged file. */
    method MergeAndSwitchContext(newConfig: Option<Config>, name: string, io: MergeIO, sourceLabel: string -> string)
      returns (r: Merged)
      requires Valid() && (io.tmpPath.Some? ==> Unknown(io.tmpPath.value))
      modifies this`contextRegistry, this`perFileConfigs, this`perFileMtimes, this`kubeconfigPaths, this`capiKubeconfigs
      modifies perFileConfigs, perFileMtimes
      ensures Valid()
      // Success, and what it means.
      ensures r.Merged? ==> Accepted(newConfig, name) && (old(CanReuse(name, io)) || CanAdd(name, io))
      ensures name != "" && Accepted(newConfig, name) && (old(CanReuse(name, io)) || CanAdd(name, io)) ==> r.Merged?
      ensures r.Merged? ==>
              contextRegistry != null && r.qName in contextRegistry.m
              && contextRegistry.m[r.qName] == Entry(r.path, name)
      ensures r.Merged? ==>
                && capiKubeconfigs == old(capiKubeconfigs)[name := r.path]
                && kubeconfigPaths == if old(CanReuse(name, io)) then old(kubeconfigPaths)
                   else old(PathsBefore()) + [r.path]
      ensures r.Merged? && old(CanReuse(name, io)) ==>
                && r.path == old(capiKubeconfigs)[name]
                && contextRegistry == old(contextRegistry) && perFileConfigs == old(perFileConfigs)
      ensures r.Merged? && !old(CanReuse(name, io)) ==>
                && io.tmpPath == Some(r.path)
                && FileAdded(old(contextRegistry) == null,
                             CacheAfter(old(perFileConfigs.m), old(capiKubeconfigs), name, io),
                             if old(perFileMtimes) == null then map[]
                             else TimesAfter(old(perFileMtimes.m), old(capiKubeconfigs), name, io),
                             io.diskAfterWrite, kubeconfigPaths, r.path, perFileConfigs.m, Times())
      // Failure publishes nothing.
      ensures r.Failed? ==>
                && contextRegistry == old(contextRegistry) && perFileConfigs == old(perFileConfigs)
                && perFileMtimes == old(perFileMtimes) && kubeconfigPaths == old(kubeconfigPaths)
                && capiKubeconfigs - {name} == old(capiKubeconfigs) - {name}
      // Names stay.
      ensures old(contextRegistry) != null ==>
                && contextRegistry != null && old(contextRegistry).m == old(contextRegistry.m)
                && forall n :: n in old(contextRegistry.m) ==>
                   n in contextRegistry.m && contextRegistry.m[n] == old(contextRegistry.m)[n]
      // What a reader finds in the tables it captured before.
      ensures old(perFileConfigs).m ==
              if Accepted(newConfig, name) then CacheAfter(old(perFileConfigs.m), old(capiKubeconfigs), name, io)
                  else old(perFileConfigs.m)
      ensures old(perFileMtimes) != null ==>
                old(perFileMtimes).m ==
                if Accepted(newConfig, name) then TimesAfter(old(perFileMtimes.m), old(capiKubeconfigs), name, io)
                    else old(perFileMtimes.m)
      // When the registry still matches the parsed files.
      ensures old(contextRegistry) != null && old(MatchesFiles()) ==>
                (MatchesFiles() <==>
                 (Accepted(newConfig, name) ==> InStep(old(perFileConfigs.m), old(capiKubeconfigs), name, io)))
      ensures old(contextRegistry) == null ==> MatchesFiles()
      ensures contextRegistry != null
              && (old(contextRegistry) != null ==> NamesFit(old(contextRegistry.m), sourceLabel)) ==>
                NamesFit(contextRegistry.m, sourceLabel)
    {
      hide Injective, Matches, NamesFit, InStep, CacheAfter, TimesAfter, Named, CanAdd, FileAdded;
      if !Accepted(newConfig, name) {
        return Failed;
      }
      CacheWithout(perFileConfigs.m, Times(), capiKubeconfigs, name, io);
      if name in capiKubeconfigs {
        r := Overwrite(io, name);
        if r.Merged? {
          return;
        }
      }
      StillUnknown(old(capiKubeconfigs), name);
      r := AddFile(io, name, sourceLabel);
    }

    /** The slow path: a new temporary file, registered beside the others. */
    method AddFile(io: MergeIO, name: string, sourceLabel: string -> string) returns (r: Merged)
      requires Valid() && (io.tmpPath.Some? ==> Unknown(io.tmpPath.value))
      modifies this`contextRegistry, this`perFileConfigs, this`perFileMtimes, this`kubeconfigPaths, this`capiKubeconfigs
      ensures Valid()
      ensures r.Merged? ==> CanAdd(name, io)
      ensures name != "" && CanAdd(name, io) ==> r.Merged?
      ensures r.Merged? ==>
              contextRegistry != null && r.qName in contextRegistry.m
              && contextRegistry.m[r.qName] == Entry(r.path, name)
      // The file joins the others with its content and its time, and is remembered for the context.
      ensures r.Merged? ==>
                && io.tmpPath == Some(r.path) && capiKubeconfigs == old(capiKubeconfigs)[name := r.path]
                && kubeconfigPaths == old(PathsBefore()) + [r.path]
                && FileAdded(old(contextRegistry) == null, old(perFileConfigs.m), old(Times()), io.diskAfterWrite,
                             kubeconfigPaths, r.path, perFileConfigs.m, Times())
      ensures r.Failed? ==>
                && contextRegistry == old(contextRegistry) && perFileConfigs == old(perFileConfigs)
                && perFileMtimes == old(perFileMtimes) && kubeconfigPaths == old(kubeconfigPaths)
                && capiKubeconfigs == old(capiKubeconfigs)
      ensures old(contextRegistry) != null ==>
                && contextRegistry != null && (MatchesFiles() <==> old(MatchesFiles()))
                && forall n :: n in old(contextRegistry.m) ==>
                   n in contextRegistry.m && contextRegistry.m[n] == old(contextRegistry.m)[n]
      ensures old(contextRegistry) == null ==> MatchesFiles()
      ensures contextRegistry != null
              && (old(contextRegistry) != null ==> NamesFit(old(contextRegistry.m), sourceLabel)) ==>
                NamesFit(contextRegistry.m, sourceLabel)
    {
      hide Injective, Matches, FileAdded, Registered, NamesFit;
      if io.tmpPath.None? || !io.writeOk {
        return Failed;
      }
      var staged := Stage(io.tmpPath.value, io.diskAfterWrite, sourceLabel);
      if staged.None? {
        return Failed;
      }
      var ix := staged.value;
      var qName := FindAdded(ix.registry, io.tmpPath.value, name,
                             LoadFromFile(io.diskAfterWrite, io.tmpPath.value).value.contexts);
      if qName == "" {
        return Failed;
      }
      Commit(ix, name, io.tmpPath.value);
      return Merged(qName, io.tmpPath.value);
    }

    /** The last step of the slow path: everything staged becomes the state at once. */
    method Commit(ix: Index, name: string, path: string)
      requires Injective(ix.registry)
      modifies this`contextRegistry, this`perFileConfigs, this`perFileMtimes, this`kubeconfigPaths, this`capiKubeconfigs
      ensures Valid() && fresh(contextRegistry) && fresh(perFileConfigs) && perFileMtimes != null
      ensures contextRegistry != null && contextRegistry.m == ix.registry
      ensures perFileConfigs.m == ix.configs && perFileMtimes.m == ix.mtimes
      ensures kubeconfigPaths == old(PathsBefore()) + [path]
      ensures capiKubeconfigs == old(capiKubeconfigs)[name := path]
    {
      hide Injective;
      kubeconfigPaths := PathsBefore() + [path];
      contextRegistry := new Table(ix.registry);
      perFileConfigs := new Table(ix.configs);
      perFileMtimes := new Table(ix.mtimes);
      capiKubeconfigs := capiKubeconfigs[name := path];
    }

    /** The files a merge adds one to. */
    function PathsBefore(): seq<string>
      reads this
    {
      if contextRegistry != null then kubeconfigPaths else if kubeconfigPath != "" then [kubeconfigPath] else []
    }

    /** The recorded times; none in single-file mode. */
    function Times(): Mtimes
      reads this, perFileMtimes
    {
      if perFileMtimes == null then map[] else perFileMtimes.m
    }

    /** The additions of a merge, staged and not yet published: the registry with the new
        file, or, in single-file mode, a registry of the original file and the new one. */
    method Stage(tmp: string, disk: Disk, sourceLabel: string -> string) returns (staged: Option<Index>)
      requires Valid() && Unknown(tmp)
      ensures staged.Some? <==> LoadFromFile(disk, tmp).Some?
      ensures staged.Some? ==>
                && Injective(staged.value.registry)
                && ((contextRegistry != null ==> NamesFit(contextRegistry.m, sourceLabel)) ==>
                      NamesFit(staged.value.registry, sourceLabel))
                && (forall c :: Registered(staged.value.registry, Entry(tmp, c)) <==>
                    c in LoadFromFile(disk, tmp).value.contexts)
                && ("" in staged.value.registry && staged.value.registry[""].sourceFile == tmp ==>
                    staged.value.registry[""].inFileName == "")
                && (contextRegistry == null ==> Matches(staged.value.registry, staged.value.configs))
                && FileAdded(contextRegistry == null, perFileConfigs.m, Times(), disk, PathsBefore() + [tmp], tmp,
                             staged.value.configs, staged.value.mtimes)
                && (contextRegistry != null ==>
                      && (MatchesFiles() <==> Matches(staged.value.registry, staged.value.configs))
                      && forall n :: n in contextRegistry.m ==>
                         n in staged.value.registry && staged.value.registry[n] == contextRegistry.m[n])
    {
      hide Injective, Matches, Registered, NamesFit;
      if contextRegistry == null {
        var seeds := PathsBefore() + [tmp];
        var built, builtConfigs := BuildContextRegistry(disk, seeds, sourceLabel);
        if tmp !in builtConfigs {
          return None;
        }
        BuiltFile(disk, seeds, built, builtConfigs, tmp);
        return Some(Index(built, builtConfigs, TimesOf(disk, seeds)));
      }
      var cfg := LoadFromFile(disk, tmp);
      if cfg.None? {
        return None;
      }
      var registry := RegisterFile(contextRegistry.m, tmp, cfg.value, sourceLabel);
      MergeMatches(contextRegistry.m, perFileConfigs.m, tmp, cfg.value, registry);
      var mtimes := Times();
      if tmp in disk {
        mtimes := mtimes[tmp := disk[tmp].mtime];
      }
      return Some(Index(registry, perFileConfigs.m[tmp := cfg.value], mtimes));
    }
  }

  /** The times of the files that are there. */
  function TimesOf(disk: Disk, paths: seq<string>): Mtimes {
    map p | p in paths && p in disk :: disk[p].mtime
  }

  /** The new temporary file can be written and read back. */
  predicate CanAdd(name: string, io: MergeIO) {
    && io.tmpPath.Some? && io.writeOk && LoadFromFile(io.diskAfterWrite, io.tmpPath.value).Some?
    && name in LoadFromFile(io.diskAfterWrite, io.tmpPath.value).value.contexts
  }

  function ContextsOnDisk(disk: Disk, path: string): set<string> {
    if LoadFromFile(disk, path).Some? then LoadFromFile(disk, path).value.contexts else {}
  }

  /** With what a merge ensures of the tables captured before it: they keep their contents exactly
      when the fast path writes nothing, or writes back the content and the time that were cached. */
  lemma CapturedKeepIff(configs: Configs, mtimes: Mtimes, capi: map<string, string>, name: string, io: MergeIO)
    ensures CacheAfter(configs, capi, name, io) == configs && TimesAfter(mtimes, capi, name, io) == mtimes <==>
            (Rewrites(capi, name, io) ==>
               var path, disk := capi[name], io.diskAfterOverwrite;
               && path in configs && disk[path].parsed == Some(configs[path])
               && path in mtimes && disk[path].mtime == mtimes[path])
  {
    if Rewrites(capi, name, io) {
      var path := capi[name];
      assert path in CacheAfter(configs, capi, name, io) && path in TimesAfter(mtimes, capi, name, io);
    }
  }

  lemma CacheWithout(configs: Configs, mtimes: Mtimes, capi: map<string, string>, name: string, io: MergeIO)
    ensures name !in capi ==>
              && CacheAfter(configs, capi, name, io) == configs && TimesAfter(mtimes, capi, name, io) == mtimes
              && InStep(configs, capi, name, io)
    ensures forall p :: p in CacheAfter(configs, capi, name, io) ==> p in configs || p in capi.Values
  {
  }

  lemma StillUnknown(capi: map<string, string>, name: string)
    ensures (capi - {name}).Values <= capi.Values
  {
  }

  /** The name a context of the added file got: found whenever the file has the context, unless that
      is the nameless one. */
  method FindAdded(registry: Registry, path: string, name: string, ghost contexts: set<string>) returns (qName: string)
    requires forall c :: Registered(registry, Entry(path, c)) <==> c in contexts
    requires "" in registry && registry[""].sourceFile == path ==> registry[""].inFileName == ""
    ensures qName != "" ==> name in contexts && qName in registry && registry[qName] == Entry(path, name)
    ensures name != "" && name in contexts ==> qName != ""
  {
    qName := FindQualifiedNameForPath(registry, path, name);
    assert Registered(registry, Entry(path, name)) <==> name in contexts;
  }

  lemma BuiltFile(disk: Disk, paths: seq<string>, registry: Registry, configs: Configs, path: string)
    requires Loads(disk, paths, configs) && Matches(registry, configs) && path in configs
    ensures forall c :: Registered(registry, Entry(path, c)) <==> c in LoadFromFile(disk, path).value.contexts
  {
    hide Registered;
  }

  method BuildAndPick(disk: Disk, paths: seq<string>, sourceLabel: string -> string)
    returns (registry: Registry, configs: Configs, qName: string, entry: Entry, ok: bool)
    requires Distinct(paths)
    ensures Injective(registry) && Matches(registry, configs)
    ensures !ok <==> forall p :: p in paths ==> !ListsContexts(disk, p)
    ensures ok ==> qName in registry && registry[qName] == entry
    ensures ok ==> IsStartUp(disk, paths, sourceLabel, registry, configs, entry)
  {
    registry, configs := BuildContextRegistry(disk, paths, sourceLabel);
    BuiltEmptyIff(disk, paths, registry, configs);
    BuiltRegistryIsUsable(disk, paths, registry, configs);
    assert !Repeats(disk, paths);
    hide *;
    qName, entry, ok := PickInitialContext(paths, registry, configs);
    if ok {
      Started(disk, paths, sourceLabel, registry, configs, entry);
    }
  }

  lemma RefreshInjective(ix: Index, disk: Disk, ix': Index)
    requires Refreshed(ix, disk, ix')
    ensures Injective(ix.registry) ==> Injective(ix'.registry)
  {
  }

  lemma BuiltEmptyIff(disk: Disk, paths: seq<string>, registry: Registry, configs: Configs)
    requires Loads(disk, paths, configs) && Matches(registry, configs)
    ensures registry == map[] <==> forall p :: p in paths ==> !ListsContexts(disk, p)
  {
    if registry != map[] {
      var n :| n in registry;
      assert Registered(registry, Entry(registry[n].sourceFile, registry[n].inFileName));
      assert ListsContexts(disk, registry[n].sourceFile);
    } else {
      forall p | p in paths && LoadFromFile(disk, p).Some? ensures LoadFromFile(disk, p).value.contexts == {} {
        assert forall c :: !Registered(registry, Entry(p, c));
      }
    }
  }

  lemma AllListed(registry: Registry, configs: Configs)
    requires Matches(registry, configs)
    ensures forall n :: n in registry ==>
            registry[n].sourceFile in configs && registry[n].inFileName in configs[registry[n].sourceFile].contexts
  {
    forall n | n in registry
        ensures registry[n].sourceFile in configs
        && registry[n].inFileName in configs[registry[n].sourceFile].contexts {
      assert Registered(registry, Entry(registry[n].sourceFile, registry[n].inFileName));
    }
  }

  /** Registering a file nobody refers to yet leaves the match as it was. */
  lemma MergeMatches(registry: Registry, configs: Configs, path: string, cfg: Config, registry': Registry)
    requires path !in configs && forall n :: n in registry ==> registry[n].sourceFile != path
    requires forall p, c :: Registered(registry', Entry(p, c)) <==>
             Registered(registry, Entry(p, c)) || (p == path && c in cfg.contexts)
    ensures forall c :: !Registered(registry, Entry(path, c))
    ensures Matches(registry, configs) <==> Matches(registry', configs[path := cfg])
  {
    assert forall c :: !Registered(registry, Entry(path, c));
    hide Registered;
    var configs' := configs[path := cfg];
    if Matches(registry', configs') {
      forall p, c ensures Registered(registry, Entry(p, c)) <==> p in configs && c in configs[p].contexts {
        assert Registered(registry', Entry(p, c)) <==> p in configs' && c in configs'[p].contexts;
      }
    }
  }
}
