/** The tables of the installation (cmd/mailctl/main.go): what a scheduled backup archives, and where a
    live restore puts it. */
module Installation {
  import opened Options
  import opened Text
  import opened EncryptedArchive
  import opened FileTree
  import opened BackupArchive
  import opened Unpacking
  import opened LiveRestore
  import opened BackupRestore

  datatype Config = Config(mailRoot: string, quarantineDir: string, configDir: string)

  function BackupSources(cfg: Config): seq<Source> {
    [Source("etc-proidentity-mail", PathOf("/etc/proidentity-mail"), false),
     Source("maildir", PathOf(cfg.mailRoot), false),
     Source("quarantine", PathOf(cfg.quarantineDir), false),
     Source("generated-config", PathOf(cfg.configDir), false),
     Source("rspamd-dkim", PathOf("/var/lib/rspamd/dkim"), false),
     Source("nginx-proidentity", PathOf("/etc/nginx/proidentity"), false),
     Source("nginx-conf", PathOf("/etc/nginx/conf.d/proidentity.conf"), false),
     Source("certbot", PathOf("/etc/letsencrypt"), false)]
  }

  function LiveRestoreMappings(cfg: Config): seq<LiveMapping> {
    [LiveMapping("etc-proidentity-mail", "/etc/proidentity-mail"),
     LiveMapping("maildir", cfg.mailRoot),
     LiveMapping("quarantine", cfg.quarantineDir),
     LiveMapping("generated-config", cfg.configDir),
     LiveMapping("rspamd-dkim", "/var/lib/rspamd/dkim"),
     LiveMapping("nginx-proidentity", "/etc/nginx/proidentity"),
     LiveMapping("nginx-conf/proidentity.conf", "/etc/nginx/conf.d/proidentity.conf"),
     LiveMapping("certbot", "/etc/letsencrypt")]
  }

  const NGINX_CONF := 6

  /** The shape the tables take for granted: the nginx configuration is a file or missing, the other
      sources are directories or missing. */
  ghost predicate AsInstalled(t: Tree, cfg: Config) {
    forall i :: 0 <= i < |BackupSources(cfg)| ==>
      var path := BackupSources(cfg)[i].path;
      if i == NGINX_CONF then EntriesOf(t, path) == {} || path in t.files else path !in t.files
  }

  ghost predicate Configured(cfg: Config) {
    TrimSpace(cfg.mailRoot) != "" && TrimSpace(cfg.quarantineDir) != "" && TrimSpace(cfg.configDir) != ""
  }

  predicate PlainComponent(name: string) {
    name != "" && '/' !in name && !IsSpace(name[0]) && !IsSpace(name[|name|-1]) && name[0] != '.'
  }

  lemma OneComponent(name: string)
    requires PlainComponent(name)
    ensures ValidComponent(name) && TrimSpace(name) == name && SafeName(name) && PathOf(name) == [name]
  {
    hide SafeName, IsSpace, Clean, Split, TrimSpace;
    PlainNameIsSafe(name);
    TrimNothing(name);
    SplitNone(name, '/');
    CleanKeeps([name]);
  }

  lemma NginxConf()
    ensures var m := LiveMapping("nginx-conf/proidentity.conf", "/etc/nginx/conf.d/proidentity.conf");
            && From(m) == ["nginx-conf", "proidentity.conf"] && TrimSpace(m.source) == m.source
            && SafeName(m.source) && Inside(m.source)
  {
    hide Inside, Contains, Split, TrimSpace, IsSpace, SafeName, Clean;
    var name := "nginx-conf/proidentity.conf";
    PlainNginxConf();
    OneComponent("nginx-conf");
    OneComponent("proidentity.conf");
    assert name == "nginx-conf" + ['/'] + "proidentity.conf";
    SplitFirst("nginx-conf", '/', "proidentity.conf");
    SplitNone("proidentity.conf", '/');
    assert Split(name, '/') == ["nginx-conf", "proidentity.conf"];
    CleanKeeps(["nginx-conf", "proidentity.conf"]);
    EdgesOfName();
    TrimNothing(name);
    NoDotDot(name);
    StagedIsInside(name);
  }

  lemma PlainNginxConf()
    ensures PlainComponent("nginx-conf") && PlainComponent("proidentity.conf")
  {
  }

  lemma EdgesOfName()
    ensures var name := "nginx-conf/proidentity.conf";
            && !IsSpace(name[0]) && !IsSpace(name[|name|-1]) && name[0] != '.'
            && forall k :: 0 <= k < |name| - 1 ==> !(name[k] == '.' && name[k+1] == '.')
  {
  }

  lemma {:induction false} NoPartTwice(s: string, part: string, c: char, d: char)
    requires |part| == 3 && part[0] == part[1] == c && part[2] == d
    requires forall k :: 0 <= k < |s| - 1 ==> !(s[k] == c && s[k+1] == c)
    ensures !Contains(s, part)
  {
    if s != "" {
      if part <= s {
        assert false;
      }
      forall k | 0 <= k < |s[1..]| - 1 ensures !(s[1..][k] == c && s[1..][k+1] == c) {
        assert s[1..][k] == s[k+1] && s[1..][k+1] == s[k+1+1];
      }
      NoPartTwice(s[1..], part, c, d);
    }
  }

  lemma NoDotDot(name: string)
    requires name != "" && TrimSpace(name) == name && name[0] != '.' && name[0] != '/'
    requires forall k :: 0 <= k < |name| - 1 ==> !(name[k] == '.' && name[k+1] == '.')
    ensures SafeName(name)
  {
    hide Contains, TrimSpace;
    NoPartTwice(name, "../", '.', '/');
  }

  lemma PlainSystemNames()
    ensures PlainComponent("etc-proidentity-mail") && PlainComponent("maildir") && PlainComponent("quarantine")
    ensures PlainComponent("generated-config")
  {
  }

  lemma PlainServiceNames()
    ensures PlainComponent("rspamd-dkim") && PlainComponent("nginx-proidentity") && PlainComponent("certbot")
    ensures PlainComponent("database")
  {
  }

  lemma PlainTableNames()
    ensures PlainComponent("etc-proidentity-mail") && PlainComponent("maildir") && PlainComponent("quarantine")
    ensures PlainComponent("generated-config") && PlainComponent("rspamd-dkim") && PlainComponent("nginx-proidentity")
    ensures PlainComponent("nginx-conf") && PlainComponent("certbot") && PlainComponent("database")
  {
    hide PlainComponent;
    PlainSystemNames();
    PlainServiceNames();
    PlainNginxConf();
  }

  lemma FixedTargets()
    ensures TrimSpace("/etc/proidentity-mail") != "" && TrimSpace("/var/lib/rspamd/dkim") != ""
    ensures TrimSpace("/etc/nginx/proidentity") != "" && TrimSpace("/etc/nginx/conf.d/proidentity.conf") != ""
    ensures TrimSpace("/etc/letsencrypt") != ""
  {
    hide TrimSpace;
    TrimNothing("/etc/proidentity-mail");
    TrimNothing("/var/lib/rspamd/dkim");
    TrimNothing("/etc/nginx/proidentity");
    TrimNothing("/etc/nginx/conf.d/proidentity.conf");
    TrimNothing("/etc/letsencrypt");
  }

  lemma LastComponent(dir: string, name: string)
    requires ValidComponent(name)
    ensures PathOf(dir + ['/'] + name) == PathOf(dir) + [name]
  {
    SplitLast(dir, '/', name);
    var parts := Split(dir, '/');
    assert (parts + [name])[..|parts|] == parts;
  }

  lemma NginxConfPath()
    ensures var p := PathOf("/etc/nginx/conf.d/proidentity.conf"); p != [] && p[|p|-1] == "proidentity.conf"
  {
    hide PathOf;
    LastComponent("/etc/nginx/conf.d", "proidentity.conf");
    assert "/etc/nginx/conf.d" + ['/'] + "proidentity.conf" == "/etc/nginx/conf.d/proidentity.conf";
  }

  /** A mapping whose source is a bare name undoes a source of that name that was not a file. */
  lemma DirectoryRow(t: Tree, name: string, target: string)
    requires PlainComponent(name)
    ensures Undoes(t, LiveMapping(name, target), Source(name, PathOf(target), false))
            <==> TrimSpace(target) != "" && PathOf(target) !in t.files
  {
    hide SafeName, Inside, TrimSpace, PathOf, EntriesOf, PlainComponent;
    OneComponent(name);
    StagedIsInside(name);
  }

  lemma FileRow(t: Tree)
    ensures var m := LiveMapping("nginx-conf/proidentity.conf", "/etc/nginx/conf.d/proidentity.conf");
            var s := Source("nginx-conf", PathOf("/etc/nginx/conf.d/proidentity.conf"), false);
            Undoes(t, m, s) <==> EntriesOf(t, s.path) == {} || s.path in t.files
  {
    hide SafeName, Inside, TrimSpace, PathOf, From, EntriesOf;
    NginxConf();
    NginxConfPath();
    FixedTargets();
  }

  lemma AsInstalledIs(t: Tree, cfg: Config)
    ensures var ss := BackupSources(cfg);
            AsInstalled(t, cfg) <==>
              && ss[0].path !in t.files && ss[1].path !in t.files && ss[2].path !in t.files && ss[3].path !in t.files && ss[4].path !in t.files
              && ss[5].path !in t.files && (EntriesOf(t, ss[6].path) == {} || ss[6].path in t.files) && ss[7].path !in t.files
  {
    hide PathOf, EntriesOf;
    var ss := BackupSources(cfg);
    assert |ss| == 8;
  }

  /** Every mapping of the restore table undoes the source of the backup table at the same place,
      exactly when the configured directories are named and the sources have the expected shape. */
  lemma TablesAgree(t: Tree, cfg: Config)
    ensures (forall i :: 0 <= i < 8 ==> Undoes(t, LiveRestoreMappings(cfg)[i], BackupSources(cfg)[i]))
            <==> Configured(cfg) && AsInstalled(t, cfg)
  {
    hide Undoes, PathOf, TrimSpace, EntriesOf, PlainComponent;
    PlainTableNames();
    FixedTargets();
    DirectoryRow(t, "etc-proidentity-mail", "/etc/proidentity-mail");
    DirectoryRow(t, "maildir", cfg.mailRoot);
    DirectoryRow(t, "quarantine", cfg.quarantineDir);
    DirectoryRow(t, "generated-config", cfg.configDir);
    DirectoryRow(t, "rspamd-dkim", "/var/lib/rspamd/dkim");
    DirectoryRow(t, "nginx-proidentity", "/etc/nginx/proidentity");
    FileRow(t);
    DirectoryRow(t, "certbot", "/etc/letsencrypt");
    var ms, ss := LiveRestoreMappings(cfg), BackupSources(cfg);
    assert (forall i :: 0 <= i < 8 ==> Undoes(t, ms[i], ss[i]))
           <==> Undoes(t, ms[0], ss[0]) && Undoes(t, ms[1], ss[1]) && Undoes(t, ms[2], ss[2]) && Undoes(t, ms[3], ss[3])
                && Undoes(t, ms[4], ss[4]) && Undoes(t, ms[5], ss[5]) && Undoes(t, ms[6], ss[6]) && Undoes(t, ms[7], ss[7]);
    AsInstalledIs(t, cfg);
  }

  /** Names of the same length are told apart by their first letter. */
  lemma NamesDiffer(ss: seq<Source>)
    requires |ss| == 9
    requires |ss[0].name| == 20 && |ss[1].name| == 7 && |ss[2].name| == 10 && |ss[3].name| == 16 && |ss[4].name| == 11
    requires |ss[5].name| == 17 && |ss[6].name| == 10 && |ss[7].name| == 7 && |ss[8].name| == 8
    requires ss[1].name[0] != ss[7].name[0] && ss[2].name[0] != ss[6].name[0]
    ensures forall i, j :: 0 <= i < j < |ss| ==> ss[i].name != ss[j].name
  {
  }

  lemma TableRows(ss: seq<Source>)
    requires |ss| == 9
    requires ss[0].name == "etc-proidentity-mail" && ss[1].name == "maildir" && ss[2].name == "quarantine"
    requires ss[3].name == "generated-config" && ss[4].name == "rspamd-dkim" && ss[5].name == "nginx-proidentity"
    requires ss[6].name == "nginx-conf" && ss[7].name == "certbot" && ss[8].name == "database"
    ensures |ss[0].name| == 20 && |ss[1].name| == 7 && |ss[2].name| == 10 && |ss[3].name| == 16 && |ss[4].name| == 11
    ensures |ss[5].name| == 17 && |ss[6].name| == 10 && |ss[7].name| == 7 && |ss[8].name| == 8
    ensures ss[1].name[0] != ss[7].name[0] && ss[2].name[0] != ss[6].name[0]
  {
  }

  lemma NamesAreWellFormed(sources: seq<Source>, some: seq<Source>)
    requires |sources| == 9 && some <= sources
    requires PlainComponent(sources[0].name) && PlainComponent(sources[1].name) && PlainComponent(sources[2].name)
    requires PlainComponent(sources[3].name) && PlainComponent(sources[4].name) && PlainComponent(sources[5].name)
    requires PlainComponent(sources[6].name) && PlainComponent(sources[7].name) && PlainComponent(sources[8].name)
    requires forall i, j :: 0 <= i < j < |sources| ==> sources[i].name != sources[j].name
    ensures WellFormedSources(some)
  {
    hide PlainComponent, ValidComponent;
    forall i | 0 <= i < |some| ensures ValidComponent(some[i].name) {
      assert some[i] == sources[i];
      OneComponent(some[i].name);
    }
    forall i, j | 0 <= i < j < |some| ensures some[i].name != some[j].name {
      assert some[i] == sources[i] && some[j] == sources[j];
    }
  }

  lemma RowsAreMapped(t: Tree, ms: seq<LiveMapping>, rows: seq<Source>, sources: seq<Source>)
    requires |ms| == |rows| && rows <= sources && forall i :: 0 <= i < |ms| ==> Undoes(t, ms[i], rows[i])
    ensures Mapped(t, sources, ms)
  {
    hide Undoes;
    forall k | 0 <= k < |ms|
      ensures LeadsBack(t, sources, ms[k])
    {
      assert sources[k] == rows[k] && Undoes(t, ms[k], sources[k]);
    }
  }

  /** The sources of a scheduled backup: the table, and the database dump if it is asked for. */
  function ScheduledSources(cfg: Config, dump: Option<Path>): seq<Source> {
    BackupSources(cfg) + if dump.Some? then [Source("database", dump.value, true)] else []
  }

  /** A scheduled backup of an installed system and its live restore, with the tables of both. */
  method BackUpAndRestoreInstalled(t: Tree, cfg: Config, dump: Option<Path>, sum: Bytes -> string, live: Tree)
    returns (created: Created, restored: Option<Summary>, after: Tree, ghost items: seq<Item>)
    requires Sound(t) && Sound(live) && Configured(cfg) && AsInstalled(t, cfg)
    ensures created.Made? <==>
              (forall k :: 0 <= k < 8 ==> !UnderFile(t, BackupSources(cfg)[k].path)) && (dump.Some? ==> Exists(t, dump.value))
    ensures created.Made? ==> created.archive != [] && items == created.archive[..|created.archive|-1]
    ensures created.Made? ==>
              RestoredAs(t, ScheduledSources(cfg, dump), items, LiveRestoreMappings(cfg), live, restored, after)
    ensures SameOutside(live, after, LiveRestoreMappings(cfg)) && Sound(after)
  {
    hide *;
    ghost var rows := BackupSources(cfg) + [Source("database", if dump.Some? then dump.value else [], true)];
    var sources := ScheduledSources(cfg, dump);
    ScheduledIs(cfg, dump, rows);
    TableRows(rows);
    NamesDiffer(rows);
    PlainTableNames();
    NamesAreWellFormed(rows, sources);
    TablesAgree(t, cfg);
    RowsAreMapped(t, LiveRestoreMappings(cfg), BackupSources(cfg), sources);
    OnlyTheDumpIsRequired(t, cfg, dump);
    created, restored, after, items := BackUpAndRestore(t, sources, sum, LiveRestoreMappings(cfg), live);
  }

  lemma ScheduledIs(cfg: Config, dump: Option<Path>, rows: seq<Source>)
    requires rows == BackupSources(cfg) + [Source("database", if dump.Some? then dump.value else [], true)]
    ensures |rows| == 9 && |BackupSources(cfg)| == 8 && |LiveRestoreMappings(cfg)| == 8
    ensures BackupSources(cfg) <= ScheduledSources(cfg, dump) <= rows
    ensures rows[0].name == "etc-proidentity-mail" && rows[1].name == "maildir" && rows[2].name == "quarantine"
    ensures rows[3].name == "generated-config" && rows[4].name == "rspamd-dkim" && rows[5].name == "nginx-proidentity"
    ensures rows[6].name == "nginx-conf" && rows[7].name == "certbot" && rows[8].name == "database"
  {
    hide PathOf;
  }

  lemma OnlyTheDumpIsRequired(t: Tree, cfg: Config, dump: Option<Path>)
    requires Sound(t)
    ensures |BackupSources(cfg)| == 8
    ensures var sources := ScheduledSources(cfg, dump);
            (forall k :: 0 <= k < |sources| ==> Usable(t, sources[k]))
            <==> (forall k :: 0 <= k < 8 ==> !UnderFile(t, BackupSources(cfg)[k].path))
                 && (dump.Some? ==> Exists(t, dump.value))
  {
    hide PathOf, Exists, UnderFile, BackupSources, Sound;
    var rows, sources := BackupSources(cfg), ScheduledSources(cfg, dump);
    AllOptional(cfg);
    forall k | 0 <= k < 8
      ensures sources[k] == rows[k] && (Usable(t, sources[k]) <==> !UnderFile(t, rows[k].path))
    {
      if Exists(t, rows[k].path) {
        ExistsNotUnderFile(t, rows[k].path);
      }
    }
    if dump.Some? {
      assert sources[8] == Source("database", dump.value, true);
    }
  }

  lemma AllOptional(cfg: Config)
    ensures |BackupSources(cfg)| == 8
    ensures forall k :: 0 <= k < 8 ==> BackupSources(cfg)[k].name != "" && !BackupSources(cfg)[k].required
  {
    hide PathOf;
  }
}
