/** The reload diff: which proxies and visitors a new config removes, adds and changes. */
module Reload {
  import opened Wrappers
  import opened Snapshots

  /** A proxy of the new config. */
  datatype ProxyConfig = ProxyConfig(name: string, settings: seq<Setting>)

  datatype VisitorConfig = VisitorConfig(name: string, rest: string)

  datatype Delta = Delta(
    unchangedReported: bool,
    removed: set<string>,
    added: set<string>,
    changed: set<string>,
    visitorRemoved: set<string>,
    visitorAdded: set<string>,
    visitorChanged: set<string>)

  // ----- names under a user

  /** The key a proxy is registered under. */
  function KeyOf(user: string, name: string): string {
    if user == "" then name else user + "." + name
  }

  /** The name behind a key: the user's prefix cut off where it is there. */
  function NameOf(user: string, key: string): string {
    if user == "" then key
    else
      var prefix := user + ".";
      if prefix <= key then key[|prefix|..] else key
  }

  lemma NameOfKey(user: string, name: string)
    ensures NameOf(user, KeyOf(user, name)) == name
  {
  }

  /** A key registered for the user gives its name back; any other key is its own name. */
  lemma {:induction false} NameOfExact(user: string, key: string)
    ensures if exists n :: key == KeyOf(user, n) then KeyOf(user, NameOf(user, key)) == key
            else NameOf(user, key) == key
  {
    if NameOf(user, key) != key {
      assert key == KeyOf(user, NameOf(user, key));
    }
    if n :| key == KeyOf(user, n) {
      NameOfKey(user, n);
    }
  }

  function ProxyNames(ps: seq<ProxyConfig>): set<string> {
    set p | p in ps :: p.name
  }

  function VisitorNames(vs: seq<VisitorConfig>): set<string> {
    set v | v in vs :: v.name
  }

  /** No two of them share a name. */
  predicate UniqueNames(ps: seq<ProxyConfig>) {
    forall i, j :: 0 <= i < j < |ps| ==> ps[i].name != ps[j].name
  }

  function SnapshotOf(hash: string -> string, p: ProxyConfig): string {
    Snapshot(RenderedAll(hash, p.settings))
  }

  /** The first proxy of that name. */
  function First(ps: seq<ProxyConfig>, name: string): (r: Option<ProxyConfig>)
    ensures r.Some? ==> r.value in ps && r.value.name == name
    ensures r.None? <==> name !in ProxyNames(ps)
  {
    if ps == [] then None else if ps[0].name == name then Some(ps[0]) else First(ps[1..], name)
  }

  /** No proxy of that name stands before it. */
  lemma {:induction false} FirstIsFirst(ps: seq<ProxyConfig>, i: nat)
    requires i < |ps| && forall j :: 0 <= j < i ==> ps[j].name != ps[i].name
    ensures First(ps, ps[i].name) == Some(ps[i])
  {
    if i > 0 {
      FirstIsFirst(ps[1..], i - 1);
    }
  }

  method Find(ps: seq<ProxyConfig>, name: string) returns (r: Option<ProxyConfig>)
    ensures r == First(ps, name)
  {
    for i := 0 to |ps|
      invariant First(ps, name) == First(ps[i..], name)
    {
      if ps[i].name == name {
        return Some(ps[i]);
      }
    }
    return None;
  }

  // ----- what a reload finds

  function RemovedNames(registered: map<string, string>, proxies: seq<ProxyConfig>, user: string): set<string> {
    OldNames(user, registered) - ProxyNames(proxies)
  }

  function AddedNames(registered: map<string, string>, proxies: seq<ProxyConfig>, user: string): set<string> {
    ProxyNames(proxies) - OldNames(user, registered)
  }

  function OldNames(user: string, registered: map<string, string>): set<string> {
    set key | key in registered :: NameOf(user, key)
  }

  /** Names on both sides whose snapshot under the user's key is no longer the same. */
  function ChangedNames(hash: string -> string, registered: map<string, string>, proxies: seq<ProxyConfig>,
                        user: string): set<string>
  {
    set n | n in OldNames(user, registered) && n in ProxyNames(proxies)
            && KeyOf(user, n) in registered && First(proxies, n).Some?
            && registered[KeyOf(user, n)] != SnapshotOf(hash, First(proxies, n).value)
  }

  /** Visitors on both sides that differ. */
  function EditedVisitors(olds: seq<VisitorConfig>, news: seq<VisitorConfig>): set<string> {
    set v, o | v in news && o in olds && o.name == v.name && o != v :: v.name
  }

  method ChangedProxies(hash: string -> string, registered: map<string, string>, proxies: seq<ProxyConfig>,
                        user: string, common: set<string>)
    returns (changed: set<string>)
    requires common == OldNames(user, registered) * ProxyNames(proxies)
    ensures changed == ChangedNames(hash, registered, proxies, user)
  {
    changed := {};
    var left := common;
    while left != {}
      invariant left <= common
      invariant changed == set n | n in ChangedNames(hash, registered, proxies, user) && n !in left
      decreases left
    {
      var name :| name in left;
      var key := KeyOf(user, name);
      var found := Find(proxies, name);
      if key in registered && found.Some? {
        var snapshot := ConfigSnapshot(hash, found.value.settings);
        if registered[key] != snapshot {
          changed := changed + {name};
        }
      }
      left := left - {name};
    }
  }

  function Diff(hash: string -> string, registered: map<string, string>, oldVisitors: seq<VisitorConfig>,
                proxies: seq<ProxyConfig>, visitors: seq<VisitorConfig>, user: string): Delta
  {
    var removed, added := RemovedNames(registered, proxies, user), AddedNames(registered, proxies, user);
    var changed := ChangedNames(hash, registered, proxies, user);
    var visitorRemoved := VisitorNames(oldVisitors) - VisitorNames(visitors);
    var visitorAdded := VisitorNames(visitors) - VisitorNames(oldVisitors);
    var none := removed == {} && added == {} && changed == {} && visitorRemoved == {} && visitorAdded == {};
    Delta(none, removed, added, changed, visitorRemoved, visitorAdded,
          if none then {} else EditedVisitors(oldVisitors, visitors))
  }

  /** `registered` holds the keys of the registered proxies and the snapshots they were
      registered with. */
  method DoReload(hash: string -> string, registered: map<string, string>, oldVisitors: seq<VisitorConfig>,
                  proxies: seq<ProxyConfig>, visitors: seq<VisitorConfig>, user: string) returns (d: Delta)
    ensures d == Diff(hash, registered, oldVisitors, proxies, visitors, user)
    ensures d.removed == OldNames(user, registered) - ProxyNames(proxies)
    ensures d.added == ProxyNames(proxies) - OldNames(user, registered)
    ensures d.unchangedReported ==> d.removed == d.added == d.changed == d.visitorRemoved == d.visitorAdded == {}
  {
    var oldNames, newNames := OldNames(user, registered), ProxyNames(proxies);
    var removed, added := oldNames - newNames, newNames - oldNames;
    var changed := ChangedProxies(hash, registered, proxies, user, oldNames * newNames);
    var visitorRemoved := VisitorNames(oldVisitors) - VisitorNames(visitors);
    var visitorAdded := VisitorNames(visitors) - VisitorNames(oldVisitors);
    if removed == {} && added == {} && changed == {} && visitorRemoved == {} && visitorAdded == {} {
      return Delta(true, removed, added, changed, visitorRemoved, visitorAdded, {});
    }
    var visitorChanged := EditedIn(oldVisitors, visitors);
    return Delta(false, removed, added, changed, visitorRemoved, visitorAdded, visitorChanged);
  }

  method EditedIn(olds: seq<VisitorConfig>, news: seq<VisitorConfig>) returns (edited: set<string>)
    ensures edited == EditedVisitors(olds, news)
  {
    edited := {};
    for i := 0 to |news|
      invariant edited == EditedVisitors(olds, news[..i])
    {
      assert news[..i + 1] == news[..i] + [news[i]];
      if exists o :: o in olds && o.name == news[i].name && o != news[i] {
        edited := edited + {news[i].name};
      }
    }
    assert news[..|news|] == news;
  }

  // ----- acting on differences between maps

  /** `changed` is what both maps hold and differ on. */
  ghost predicate DifferOn<V>(olds: map<string, V>, news: map<string, V>, changed: set<string>) {
    forall n :: n in changed <==> n in olds && n in news && olds[n] != news[n]
  }

  /** The old map with some names taken out and some taken from the new one. */
  function Acted<V>(olds: map<string, V>, news: map<string, V>, removed: set<string>,
                    taken: set<string>): map<string, V>
  {
    (olds - removed) + (map n | n in taken && n in news :: news[n])
  }

  lemma {:induction false} Partitioned<V>(olds: map<string, V>, news: map<string, V>, changed: set<string>)
    requires DifferOn(olds, news, changed)
    ensures var removed, added, same := olds.Keys - news.Keys, news.Keys - olds.Keys, olds.Keys * news.Keys - changed;
            && removed !! added !! changed !! same
            && olds.Keys == removed + changed + same && news.Keys == added + changed + same
            && (forall n :: n in same ==> olds[n] == news[n])
  {
  }

  /** Taking the added and the reported names carries the old map to the new one exactly
      when all the changed ones are reported. */
  lemma {:induction false} ActedExact<V>(olds: map<string, V>, news: map<string, V>, changed: set<string>,
                                         reported: set<string>)
    requires DifferOn(olds, news, changed) && reported <= changed
    ensures Acted(olds, news, olds.Keys - news.Keys, (news.Keys - olds.Keys) + reported) == news
       <==> reported == changed
  {
    var acted := Acted(olds, news, olds.Keys - news.Keys, (news.Keys - olds.Keys) + reported);
    assert acted.Keys == news.Keys;
    if reported != changed {
      var n :| n in changed && n !in reported;
      assert acted[n] == olds[n];
    }
  }

  // ----- what it means for the proxies

  /** The proxies named in `olds`, with their snapshots, are the registered ones. */
  ghost predicate RegisteredAs(user: string, olds: map<string, string>, registered: map<string, string>) {
    && (forall n :: n in olds ==> KeyOf(user, n) in registered && registered[KeyOf(user, n)] == olds[n])
    && (forall key :: key in registered ==> NameOf(user, key) in olds && KeyOf(user, NameOf(user, key)) == key)
  }

  function NewSnapshots(hash: string -> string, proxies: seq<ProxyConfig>): map<string, string>
    requires UniqueNames(proxies)
  {
    map p | p in proxies :: p.name := SnapshotOf(hash, p)
  }

  lemma {:induction false} OldNamesAre(user: string, olds: map<string, string>, registered: map<string, string>)
    requires RegisteredAs(user, olds, registered)
    ensures OldNames(user, registered) == olds.Keys
  {
    forall n | n in olds ensures n in OldNames(user, registered) {
      NameOfKey(user, n);
      assert KeyOf(user, n) in registered;
    }
  }

  lemma {:induction false} NewNamesAre(hash: string -> string, proxies: seq<ProxyConfig>)
    requires UniqueNames(proxies)
    ensures NewSnapshots(hash, proxies).Keys == ProxyNames(proxies)
  {
  }

  lemma {:induction false} NewSnapshotAt(hash: string -> string, proxies: seq<ProxyConfig>, n: string)
    requires UniqueNames(proxies) && n in ProxyNames(proxies)
    ensures NewSnapshots(hash, proxies)[n] == SnapshotOf(hash, First(proxies, n).value)
  {
    var p := First(proxies, n).value;
    assert p in proxies && p.name == n;
  }

  lemma {:induction false} ChangedAt(hash: string -> string, user: string, olds: map<string, string>,
                                     registered: map<string, string>, proxies: seq<ProxyConfig>, n: string)
    requires RegisteredAs(user, olds, registered) && UniqueNames(proxies)
    ensures n in ChangedNames(hash, registered, proxies, user)
       <==> n in olds && n in NewSnapshots(hash, proxies) && olds[n] != NewSnapshots(hash, proxies)[n]
  {
    OldNamesAre(user, olds, registered);
    NewNamesAre(hash, proxies);
    if n in olds && n in ProxyNames(proxies) {
      NewSnapshotAt(hash, proxies, n);
      assert registered[KeyOf(user, n)] == olds[n];
    }
  }

  /** Changed is exactly the names on both sides whose snapshots differ. */
  lemma {:induction false} ChangedAre(hash: string -> string, user: string, olds: map<string, string>,
                                      registered: map<string, string>, proxies: seq<ProxyConfig>)
    requires RegisteredAs(user, olds, registered) && UniqueNames(proxies)
    ensures DifferOn(olds, NewSnapshots(hash, proxies), ChangedNames(hash, registered, proxies, user))
  {
    forall n
      ensures n in ChangedNames(hash, registered, proxies, user)
         <==> n in olds && n in NewSnapshots(hash, proxies) && olds[n] != NewSnapshots(hash, proxies)[n]
    {
      ChangedAt(hash, user, olds, registered, proxies, n);
    }
  }

  /** With the user unchanged, the delta names exactly what was removed, added and changed;
      with what stayed they partition both sides, and the delta turns the old set of
      proxies into the new one. */
  lemma {:induction false} DeltaExact(hash: string -> string, user: string, olds: map<string, string>,
                                      registered: map<string, string>, proxies: seq<ProxyConfig>,
                                      oldVisitors: seq<VisitorConfig>, visitors: seq<VisitorConfig>)
    requires RegisteredAs(user, olds, registered) && UniqueNames(proxies)
    ensures var d := Diff(hash, registered, oldVisitors, proxies, visitors, user);
            var news := NewSnapshots(hash, proxies);
            var same := olds.Keys * news.Keys - d.changed;
            && d.removed == olds.Keys - news.Keys && d.added == news.Keys - olds.Keys
            && DifferOn(olds, news, d.changed)
            && d.removed !! d.added !! d.changed !! same
            && olds.Keys == d.removed + d.changed + same && news.Keys == d.added + d.changed + same
            && (forall n :: n in same ==> olds[n] == news[n])
            && Acted(olds, news, d.removed, d.added + d.changed) == news
  {
    var news, changed := NewSnapshots(hash, proxies), ChangedNames(hash, registered, proxies, user);
    OldNamesAre(user, olds, registered);
    NewNamesAre(hash, proxies);
    ChangedAre(hash, user, olds, registered, proxies);
    Partitioned(olds, news, changed);
    ActedExact(olds, news, changed, changed);
  }

  /** Proxies registered under another user's keys are all removed, each by its whole key,
      unless a new proxy is named just like the key; none counts as changed. */
  lemma {:induction false} OtherUser(hash: string -> string, user: string, registered: map<string, string>,
                                     proxies: seq<ProxyConfig>, oldVisitors: seq<VisitorConfig>,
                                     visitors: seq<VisitorConfig>)
    requires forall n :: KeyOf(user, n) !in registered
    ensures var d := Diff(hash, registered, oldVisitors, proxies, visitors, user);
            && d.removed == registered.Keys - ProxyNames(proxies)
            && d.added == ProxyNames(proxies) - registered.Keys && d.changed == {}
  {
    forall key | key in registered ensures NameOf(user, key) == key {
      NameOfExact(user, key);
    }
    assert OldNames(user, registered) == registered.Keys;
  }

  /** What lets two configs of one proxy be told apart by their snapshots. */
  ghost predicate Comparable(hash: string -> string, p: ProxyConfig, q: ProxyConfig) {
    var fs, gs := RenderedAll(hash, p.settings), RenderedAll(hash, q.settings);
    && p.settings != [] && q.settings != [] && KindsAgree(p.settings, q.settings)
    && DistinctKeys(fs) && DistinctKeys(gs) && CleanKeys(fs) && CleanKeys(gs)
    && ClearOf(fs, gs) && ClearOf(gs, fs)
  }

  /** In terms of settings: a name is reported as changed exactly when the old config
      and the new one under it differ in some setting. */
  lemma {:induction false} ChangedSettings(hash: string -> string, user: string, olds: seq<ProxyConfig>,
                                           registered: map<string, string>, proxies: seq<ProxyConfig>,
                                           p: ProxyConfig, q: ProxyConfig)
    requires GoodHash(hash) && UniqueNames(olds) && UniqueNames(proxies)
    requires RegisteredAs(user, NewSnapshots(hash, olds), registered)
    requires p in olds && q in proxies && p.name == q.name && Comparable(hash, p, q)
    ensures p.name in ChangedNames(hash, registered, proxies, user) <==> !SameSettings(p.settings, q.settings)
  {
    ChangedAt(hash, user, NewSnapshots(hash, olds), registered, proxies, p.name);
    ChangeDetected(hash, p.settings, q.settings);
    SnapshotUnder(hash, olds, p);
    SnapshotUnder(hash, proxies, q);
  }

  lemma {:induction false} SnapshotUnder(hash: string -> string, proxies: seq<ProxyConfig>, p: ProxyConfig)
    requires UniqueNames(proxies) && p in proxies
    ensures p.name in NewSnapshots(hash, proxies) && NewSnapshots(hash, proxies)[p.name] == SnapshotOf(hash, p)
  {
  }

  // ----- and for the visitors

  predicate UniqueVisitors(vs: seq<VisitorConfig>) {
    forall i, j :: 0 <= i < j < |vs| ==> vs[i].name != vs[j].name
  }

  function VisitorMap(vs: seq<VisitorConfig>): map<string, VisitorConfig>
    requires UniqueVisitors(vs)
  {
    map v | v in vs :: v.name := v
  }

  lemma {:induction false} VisitorMapHas(vs: seq<VisitorConfig>, v: VisitorConfig)
    requires UniqueVisitors(vs)
    ensures v in vs <==> v.name in VisitorMap(vs) && VisitorMap(vs)[v.name] == v
  {
  }

  lemma {:induction false} EditedAre(olds: seq<VisitorConfig>, news: seq<VisitorConfig>)
    requires UniqueVisitors(olds) && UniqueVisitors(news)
    ensures DifferOn(VisitorMap(olds), VisitorMap(news), EditedVisitors(olds, news))
  {
    var before, after, edited := VisitorMap(olds), VisitorMap(news), EditedVisitors(olds, news);
    forall n ensures n in edited <==> n in before && n in after && before[n] != after[n] {
      if n in edited {
        var v, o :| v in news && o in olds && o.name == v.name && o != v && v.name == n;
        VisitorMapHas(olds, o);
        VisitorMapHas(news, v);
      }
      if n in before && n in after {
        VisitorMapHas(olds, before[n]);
        VisitorMapHas(news, after[n]);
      }
    }
  }

  /** The guard of the early return, the other way round: a proxy was removed, added or
      changed, or a visitor came or went. */
  predicate OtherwiseChanged(hash: string -> string, registered: map<string, string>, olds: seq<VisitorConfig>,
                             proxies: seq<ProxyConfig>, news: seq<VisitorConfig>, user: string)
  {
    || RemovedNames(registered, proxies, user) != {}
    || AddedNames(registered, proxies, user) != {}
    || ChangedNames(hash, registered, proxies, user) != {}
    || VisitorNames(olds) != VisitorNames(news)
  }

  /** Removed and added visitors are always reported; the delta carries the old visitors
      to the new ones exactly when no visitor was edited or something else changed too,
      because the early return reports no edited visitors. */
  lemma {:induction false} VisitorsExact(hash: string -> string, registered: map<string, string>,
                                         olds: seq<VisitorConfig>, proxies: seq<ProxyConfig>,
                                         news: seq<VisitorConfig>, user: string)
    requires UniqueVisitors(olds) && UniqueVisitors(news)
    ensures var d := Diff(hash, registered, olds, proxies, news, user);
            && d.visitorRemoved == VisitorMap(olds).Keys - VisitorMap(news).Keys
            && d.visitorAdded == VisitorMap(news).Keys - VisitorMap(olds).Keys
            && (Acted(VisitorMap(olds), VisitorMap(news), d.visitorRemoved, d.visitorAdded + d.visitorChanged)
                == VisitorMap(news)
                <==> EditedVisitors(olds, news) == {}
                     || OtherwiseChanged(hash, registered, olds, proxies, news, user))
  {
    var d := Diff(hash, registered, olds, proxies, news, user);
    assert VisitorMap(olds).Keys == VisitorNames(olds) && VisitorMap(news).Keys == VisitorNames(news);
    NoneMeansSame(VisitorNames(olds), VisitorNames(news));
    EditedAre(olds, news);
    ActedExact(VisitorMap(olds), VisitorMap(news), EditedVisitors(olds, news), d.visitorChanged);
  }

  /** A reload says that nothing changed exactly when no proxy was removed, added or changed
      and no visitor came or went. */
  lemma {:induction false} ReportExact(hash: string -> string, registered: map<string, string>,
                                       olds: seq<VisitorConfig>, proxies: seq<ProxyConfig>,
                                       news: seq<VisitorConfig>, user: string)
    ensures Diff(hash, registered, olds, proxies, news, user).unchangedReported
       <==> !OtherwiseChanged(hash, registered, olds, proxies, news, user)
  {
    NoneMeansSame(VisitorNames(olds), VisitorNames(news));
  }

  lemma {:induction false} NoneMeansSame(a: set<string>, b: set<string>)
    ensures a - b == {} && b - a == {} <==> a == b
  {
    if a - b == {} && b - a == {} {
      forall x ensures x in a <==> x in b {
        assert x !in a - b && x !in b - a;
      }
    }
  }

  /** A reload that only edits a visitor says that nothing changed. */
  lemma EditMissed(hash: string -> string, v: VisitorConfig, rest: string)
    requires rest != v.rest
    ensures var d := Diff(hash, map[], [v], [], [v.(rest := rest)], "");
            d.unchangedReported && d.visitorChanged == {} && EditedVisitors([v], [v.(rest := rest)]) == {v.name}
  {
    var w := v.(rest := rest);
    assert VisitorNames([v]) == {v.name} && VisitorNames([w]) == {v.name};
    assert v in [v] && w in [w];
  }
}
