/** Migration of a directory tree from legacy numeric groups to the current one. */
module GroupMigration {
  import opened Options

  type Ino = nat
  type Gid = nat

  /** A directory entry. Two entries may be links to one inode. */
  datatype Tree = Plain(ino: Ino) | Symlink(ino: Ino) | Dir(ino: Ino, entries: seq<Tree>)

  datatype Io = Done | Missing | Failed

  /** How system calls turn out during one walk. A listing may fail after some entries. */
  datatype Weather = Weather(
    stat: Ino -> Io, chown: Ino -> bool, open: Ino -> Io, list: Ino -> Option<nat>)

  ghost predicate Flawless(w: Weather) {
    forall ino :: w.stat(ino) == Done && w.chown(ino) && w.open(ino) == Done && w.list(ino) == None
  }

  /** Entries may vanish during the walk, but nothing fails. */
  ghost predicate Calm(w: Weather) {
    forall ino :: w.stat(ino) != Failed && w.chown(ino) && w.open(ino) != Failed && w.list(ino) == None
  }

  lemma FlawlessIsCalm(w: Weather)
    ensures Flawless(w) ==> Calm(w)
  {
  }

  // ----- Reference: what a tree contains -----

  /** The inodes of all entries that are not symbolic links, with one mention for each entry. */
  function EntriesIn(dir: Tree, i: nat): seq<Ino>
    requires dir.Dir? && i <= |dir.entries|
    decreases dir, i
  {
    if i == 0 then [] else EntriesIn(dir, i - 1) + EntriesOf(dir.entries[i - 1])
  }

  function EntriesOf(t: Tree): seq<Ino>
    decreases t, if t.Dir? then |t.entries| + 1 else 0
  {
    match t
    case Plain(ino) => [ino]
    case Symlink(_) => []
    case Dir(ino, entries) => [ino] + EntriesIn(t, |entries|)
  }

  /** The entry at the end of the path, a sequence of positions in listings, is no symbolic link and has that inode. */
  ghost predicate LeadsTo(t: Tree, path: seq<nat>, ino: Ino)
    decreases |path|
  {
    if path == [] then !t.Symlink? && t.ino == ino
    else t.Dir? && path[0] < |t.entries| && LeadsTo(t.entries[path[0]], path[1..], ino)
  }

  lemma {:induction false} PathInto(dir: Tree, i: nat, ino: Ino) returns (path: seq<nat>)
    requires dir.Dir? && i <= |dir.entries| && ino in EntriesIn(dir, i)
    ensures LeadsTo(dir, path, ino)
    decreases dir, i
  {
    if ino in EntriesIn(dir, i - 1) {
      path := PathInto(dir, i - 1, ino);
    } else {
      var rest := PathTo(dir.entries[i - 1], ino);
      path := [i - 1] + rest;
      assert path[1..] == rest;
    }
  }

  lemma {:induction false} PathTo(t: Tree, ino: Ino) returns (path: seq<nat>)
    requires ino in EntriesOf(t)
    ensures LeadsTo(t, path, ino)
    decreases t, if t.Dir? then |t.entries| + 1 else 0
  {
    if t.ino == ino && !t.Symlink? {
      path := [];
    } else {
      path := PathInto(t, |t.entries|, ino);
    }
  }

  lemma {:induction false} EntriesInHolds(dir: Tree, i: nat, k: nat, ino: Ino)
    requires dir.Dir? && k < i <= |dir.entries| && ino in EntriesOf(dir.entries[k])
    ensures ino in EntriesIn(dir, i)
    decreases i
  {
    if k < i - 1 {
      EntriesInHolds(dir, i - 1, k, ino);
    }
  }

  lemma {:induction false} PathEndsAtEntry(t: Tree, path: seq<nat>, ino: Ino)
    requires LeadsTo(t, path, ino)
    ensures ino in EntriesOf(t)
    decreases |path|
  {
    if path != [] {
      PathEndsAtEntry(t.entries[path[0]], path[1..], ino);
      EntriesInHolds(t, |t.entries|, path[0], ino);
    }
  }

  ghost predicate Reachable(t: Tree, ino: Ino) {
    exists path: seq<nat> :: LeadsTo(t, path, ino)
  }

  lemma EntryIsReachable(t: Tree, ino: Ino)
    requires ino in EntriesOf(t)
    ensures Reachable(t, ino)
  {
    var path := PathTo(t, ino);
  }

  lemma ReachableIsEntry(t: Tree, ino: Ino)
    requires Reachable(t, ino)
    ensures ino in EntriesOf(t)
  {
    var path: seq<nat> :| LeadsTo(t, path, ino);
    PathEndsAtEntry(t, path, ino);
  }

  /** The entries of a tree are what its paths lead to: links are neither entries nor followed. */
  lemma EntriesReach(t: Tree, ino: Ino)
    ensures ino in EntriesOf(t) <==> Reachable(t, ino)
  {
    hide Reachable, EntriesOf;
    if ino in EntriesOf(t) {
      EntryIsReachable(t, ino);
    }
    if Reachable(t, ino) {
      ReachableIsEntry(t, ino);
    }
  }

  // ----- What a walk meets -----

  function SeenIn(dir: Tree, i: nat, w: Weather): seq<Ino>
    requires dir.Dir? && i <= |dir.entries|
    decreases dir, i
  {
    if i == 0 then [] else SeenIn(dir, i - 1, w) + SeenOf(dir.entries[i - 1], w)
  }

  /** An entry that has vanished is passed over, and so is a directory that cannot be opened any more. */
  function SeenOf(t: Tree, w: Weather): seq<Ino>
    decreases t, if t.Dir? then |t.entries| + 1 else 0
  {
    if w.stat(t.ino) != Done then []
    else match t
      case Plain(ino) => [ino]
      case Symlink(_) => []
      case Dir(ino, entries) => [ino] + if w.open(ino) == Done then SeenIn(t, |entries|, w) else []
  }

  /** The path leads to such an entry, and nothing on it has vanished. */
  ghost predicate Meets(t: Tree, path: seq<nat>, w: Weather, ino: Ino)
    decreases |path|
  {
    && w.stat(t.ino) == Done
    && if path == [] then !t.Symlink? && t.ino == ino
       else t.Dir? && w.open(t.ino) == Done && path[0] < |t.entries| && Meets(t.entries[path[0]], path[1..], w, ino)
  }

  lemma {:induction false} WayInto(dir: Tree, i: nat, w: Weather, ino: Ino) returns (path: seq<nat>)
    requires dir.Dir? && i <= |dir.entries| && ino in SeenIn(dir, i, w)
    requires w.stat(dir.ino) == Done && w.open(dir.ino) == Done
    ensures Meets(dir, path, w, ino)
    decreases dir, i
  {
    if ino in SeenIn(dir, i - 1, w) {
      path := WayInto(dir, i - 1, w, ino);
    } else {
      var rest := WayTo(dir.entries[i - 1], w, ino);
      path := [i - 1] + rest;
      assert path[1..] == rest;
    }
  }

  lemma {:induction false} WayTo(t: Tree, w: Weather, ino: Ino) returns (path: seq<nat>)
    requires ino in SeenOf(t, w)
    ensures Meets(t, path, w, ino)
    decreases t, if t.Dir? then |t.entries| + 1 else 0
  {
    if t.ino == ino && !t.Symlink? {
      path := [];
    } else {
      path := WayInto(t, |t.entries|, w, ino);
    }
  }

  lemma {:induction false} SeenInHolds(dir: Tree, i: nat, k: nat, w: Weather, ino: Ino)
    requires dir.Dir? && k < i <= |dir.entries| && ino in SeenOf(dir.entries[k], w)
    ensures ino in SeenIn(dir, i, w)
    decreases i
  {
    if k < i - 1 {
      SeenInHolds(dir, i - 1, k, w, ino);
    }
  }

  lemma {:induction false} WayEndsAtSeen(t: Tree, path: seq<nat>, w: Weather, ino: Ino)
    requires Meets(t, path, w, ino)
    ensures ino in SeenOf(t, w)
    decreases |path|
  {
    if path != [] {
      WayEndsAtSeen(t.entries[path[0]], path[1..], w, ino);
      SeenInHolds(t, |t.entries|, path[0], w, ino);
    }
  }

  ghost predicate Met(t: Tree, w: Weather, ino: Ino) {
    exists path: seq<nat> :: Meets(t, path, w, ino)
  }

  lemma SeenIsMet(t: Tree, w: Weather, ino: Ino)
    requires ino in SeenOf(t, w)
    ensures Met(t, w, ino)
  {
    var path := WayTo(t, w, ino);
  }

  lemma MetIsSeen(t: Tree, w: Weather, ino: Ino)
    requires Met(t, w, ino)
    ensures ino in SeenOf(t, w)
  {
    var path: seq<nat> :| Meets(t, path, w, ino);
    WayEndsAtSeen(t, path, w, ino);
  }

  /** A walk meets exactly what is reachable while it lasts. */
  lemma SeenReach(t: Tree, w: Weather, ino: Ino)
    ensures ino in SeenOf(t, w) <==> Met(t, w, ino)
  {
    hide Met, SeenOf;
    if ino in SeenOf(t, w) {
      SeenIsMet(t, w, ino);
    }
    if Met(t, w, ino) {
      MetIsSeen(t, w, ino);
    }
  }

  lemma {:induction false} AllSeenIn(dir: Tree, i: nat, w: Weather)
    requires dir.Dir? && i <= |dir.entries| && Flawless(w)
    ensures SeenIn(dir, i, w) == EntriesIn(dir, i)
    decreases dir, i
  {
    if i > 0 {
      AllSeenIn(dir, i - 1, w);
      AllSeenOf(dir.entries[i - 1], w);
    }
  }

  /** When nothing goes wrong, the walk meets every entry. */
  lemma {:induction false} AllSeenOf(t: Tree, w: Weather)
    requires Flawless(w)
    ensures SeenOf(t, w) == EntriesOf(t)
    decreases t, if t.Dir? then |t.entries| + 1 else 0
  {
    if t.Dir? {
      AllSeenIn(t, |t.entries|, w);
    }
  }

  datatype Config = Config(legacy: set<Gid>, target: Gid, failClosed: bool)

  function Migrated(cfg: Config, g: Gid): Gid {
    if g in cfg.legacy then cfg.target else g
  }

  /** Entries, not inodes, that still have a legacy group. */
  function CountLegacy(cfg: Config, inos: seq<Ino>, gid: map<Ino, Gid>): nat {
    if inos == [] then 0
    else
      var last := inos[|inos| - 1];
      CountLegacy(cfg, inos[..|inos| - 1], gid) +
      if last in gid && gid[last] in cfg.legacy then 1 else 0
  }

  lemma {:induction false} CountConcat(cfg: Config, a: seq<Ino>, b: seq<Ino>, gid: map<Ino, Gid>)
    ensures CountLegacy(cfg, a + b, gid) == CountLegacy(cfg, a, gid) + CountLegacy(cfg, b, gid)
    decreases |b|
  {
    if b == [] {
      assert a + b == a;
    } else {
      var n := |b| - 1;
      assert (a + b)[..|a| + n] == a + b[..n];
      CountConcat(cfg, a, b[..n], gid);
    }
  }

  lemma CountOne(cfg: Config, ino: Ino, gid: map<Ino, Gid>)
    ensures CountLegacy(cfg, [ino], gid) == if ino in gid && gid[ino] in cfg.legacy then 1 else 0
    ensures CountLegacy(cfg, [], gid) == 0
  {
    assert [ino][..0] == [];
  }

  ghost predicate LegacyFree(cfg: Config, inos: seq<Ino>, gid: map<Ino, Gid>) {
    forall x :: x in inos && x in gid ==> gid[x] !in cfg.legacy
  }

  lemma {:induction false} CountZero(cfg: Config, inos: seq<Ino>, gid: map<Ino, Gid>)
    ensures CountLegacy(cfg, inos, gid) == 0 <==> LegacyFree(cfg, inos, gid)
    decreases |inos|
  {
    if inos != [] {
      var n := |inos| - 1;
      CountZero(cfg, inos[..n], gid);
      assert forall x :: x in inos <==> x in inos[..n] || x == inos[n];
    }
  }

  /** Between two moments, groups changed only from legacy to target, and only on the given inodes. */
  ghost predicate OnlyMigrated(cfg: Config, before: map<Ino, Gid>, after: map<Ino, Gid>, inos: seq<Ino>) {
    && after.Keys == before.Keys
    && forall x :: x in before ==>
         after[x] == before[x] || (x in inos && before[x] in cfg.legacy && after[x] == cfg.target)
  }

  /** And all of them did change. */
  ghost predicate AllMigrated(cfg: Config, before: map<Ino, Gid>, after: map<Ino, Gid>, inos: seq<Ino>) {
    OnlyMigrated(cfg, before, after, inos) && forall x :: x in inos && x in before ==> after[x] == Migrated(cfg, before[x])
  }

  lemma OnlyTrans(cfg: Config, a: map<Ino, Gid>, b: map<Ino, Gid>, c: map<Ino, Gid>, xs: seq<Ino>, ys: seq<Ino>)
    requires OnlyMigrated(cfg, a, b, xs) && OnlyMigrated(cfg, b, c, ys)
    ensures OnlyMigrated(cfg, a, c, xs + ys)
  {
  }

  lemma AllTrans(cfg: Config, a: map<Ino, Gid>, b: map<Ino, Gid>, c: map<Ino, Gid>, xs: seq<Ino>, ys: seq<Ino>)
    requires AllMigrated(cfg, a, b, xs) && AllMigrated(cfg, b, c, ys)
    ensures AllMigrated(cfg, a, c, xs + ys)
  {
    OnlyTrans(cfg, a, b, c, xs, ys);
  }

  lemma OnlyWiden(cfg: Config, a: map<Ino, Gid>, b: map<Ino, Gid>, xs: seq<Ino>, ys: seq<Ino>)
    requires OnlyMigrated(cfg, a, b, xs) && forall x :: x in xs ==> x in ys
    ensures OnlyMigrated(cfg, a, b, ys)
  {
  }

  lemma {:induction false} SeenGrows(dir: Tree, i: nat, j: nat, w: Weather)
    requires dir.Dir? && i <= j <= |dir.entries|
    ensures forall x :: x in SeenIn(dir, i, w) ==> x in SeenIn(dir, j, w)
    decreases j
  {
    if i < j {
      SeenGrows(dir, i, j - 1, w);
    }
  }

  lemma {:induction false} SeenAreEntriesIn(dir: Tree, i: nat, w: Weather)
    requires dir.Dir? && i <= |dir.entries|
    ensures forall x :: x in SeenIn(dir, i, w) ==> x in EntriesIn(dir, i)
    decreases dir, i
  {
    if i > 0 {
      SeenAreEntriesIn(dir, i - 1, w);
      SeenAreEntriesOf(dir.entries[i - 1], w);
    }
  }

  lemma {:induction false} SeenAreEntriesOf(t: Tree, w: Weather)
    ensures forall x :: x in SeenOf(t, w) ==> x in EntriesOf(t)
    decreases t, if t.Dir? then |t.entries| + 1 else 0
  {
    if t.Dir? {
      SeenAreEntriesIn(t, |t.entries|, w);
    }
  }

  // ----- The walk -----

  datatype Outcome = Exit(code: nat) | Error

  datatype Lock = NotConfigured | Free | Held | Unreadable

  class FileSystem {
    var gid: map<Ino, Gid>

    constructor (gid: map<Ino, Gid>)
      ensures this.gid == gid
    {
      this.gid := gid;
    }

    /** The inodes of the tree exist. */
    ghost predicate Holds(inos: seq<Ino>)
      reads this
    {
      forall x :: x in inos ==> x in gid
    }

    /** Visit every entry below `dir`: change its group when migrating, count it otherwise. */
    method WalkDir(dir: Tree, cfg: Config, w: Weather, migrate: bool) returns (ok: bool, leftovers: nat)
      requires dir.Dir? && Holds(EntriesIn(dir, |dir.entries|))
      modifies this
      ensures OnlyMigrated(cfg, old(gid), gid, SeenIn(dir, |dir.entries|, w))
      ensures !migrate ==> gid == old(gid)
      ensures ok && migrate ==> AllMigrated(cfg, old(gid), gid, SeenIn(dir, |dir.entries|, w)) && leftovers == 0
      ensures ok && !migrate ==> leftovers == CountLegacy(cfg, SeenIn(dir, |dir.entries|, w), gid)
      ensures Calm(w) ==> ok
      decreases dir, 0
    {
      leftovers := 0;
      var n := |dir.entries|;
      var end := if w.list(dir.ino).None? then n else if w.list(dir.ino).value < n then w.list(dir.ino).value else n;
      for i := 0 to end
        invariant gid.Keys == old(gid).Keys
        invariant OnlyMigrated(cfg, old(gid), gid, SeenIn(dir, i, w))
        invariant !migrate ==> gid == old(gid)
        invariant migrate ==> AllMigrated(cfg, old(gid), gid, SeenIn(dir, i, w)) && leftovers == 0
        invariant !migrate ==> leftovers == CountLegacy(cfg, SeenIn(dir, i, w), gid)
      {
        ghost var was := gid;
        HeldBelow(dir, i, gid);
        var done, more := WalkEntry(dir.entries[i], cfg, w, migrate);
        OnlyTrans(cfg, old(gid), was, gid, SeenIn(dir, i, w), SeenOf(dir.entries[i], w));
        SeenGrows(dir, i + 1, n, w);
        if !done {
          OnlyWiden(cfg, old(gid), gid, SeenIn(dir, i + 1, w), SeenIn(dir, n, w));
          return false, leftovers;
        }
        if migrate {
          AllTrans(cfg, old(gid), was, gid, SeenIn(dir, i, w), SeenOf(dir.entries[i], w));
        } else {
          CountConcat(cfg, SeenIn(dir, i, w), SeenOf(dir.entries[i], w), gid);
        }
        leftovers := leftovers + more;
      }
      if end < n || w.list(dir.ino).Some? {
        SeenGrows(dir, end, n, w);
        OnlyWiden(cfg, old(gid), gid, SeenIn(dir, end, w), SeenIn(dir, n, w));
        return false, leftovers;
      }
      ok := true;
    }

    method WalkEntry(t: Tree, cfg: Config, w: Weather, migrate: bool) returns (ok: bool, leftovers: nat)
      requires Holds(EntriesOf(t))
      modifies this
      ensures OnlyMigrated(cfg, old(gid), gid, SeenOf(t, w))
      ensures !migrate ==> gid == old(gid)
      ensures ok && migrate ==> AllMigrated(cfg, old(gid), gid, SeenOf(t, w)) && leftovers == 0
      ensures ok && !migrate ==> leftovers == CountLegacy(cfg, SeenOf(t, w), gid)
      ensures Calm(w) ==> ok
      decreases t, 1
    {
      leftovers := 0;
      if w.stat(t.ino) == Missing {
        return true, 0;
      }
      if w.stat(t.ino) == Failed {
        return false, 0;
      }
      if t.Symlink? {
        return true, 0;
      }
      CountOne(cfg, t.ino, gid);
      if gid[t.ino] in cfg.legacy {
        if migrate {
          if !w.chown(t.ino) {
            return false, 0;
          }
          gid := gid[t.ino := cfg.target];
        } else {
          leftovers := 1;
        }
      }
      ghost var mid := gid;
      assert migrate ==> AllMigrated(cfg, old(gid), mid, [t.ino]);
      assert OnlyMigrated(cfg, old(gid), mid, [t.ino]);
      if t.Dir? {
        var below := SeenIn(t, |t.entries|, w);
        if w.open(t.ino) == Missing {
          assert [t.ino] + [] == [t.ino];
          return true, leftovers;
        }
        if w.open(t.ino) == Failed {
          assert [t.ino] + [] == [t.ino];
          return false, leftovers;
        }
        var done, more := WalkDir(t, cfg, w, migrate);
        OnlyTrans(cfg, old(gid), mid, gid, [t.ino], below);
        if !done {
          return false, leftovers;
        }
        if migrate {
          AllTrans(cfg, old(gid), mid, gid, [t.ino], below);
        } else {
          CountConcat(cfg, [t.ino], below, gid);
        }
        leftovers := leftovers + more;
      }
      ok := true;
    }

    /** Count what still has a legacy group, the root included. */
    method ScanForLeftovers(root: Tree, cfg: Config, w: Weather) returns (ok: bool, leftovers: nat)
      requires Holds(EntriesOf(root))
      ensures ok ==> root.Dir? && leftovers == CountLegacy(cfg, SeenFromRoot(root, w), gid)
      ensures root.Dir? && Calm(w) && w.stat(root.ino) == Done && w.open(root.ino) == Done ==> ok
      modifies this
      ensures gid == old(gid)
    {
      if !root.Dir? || w.open(root.ino) != Done || w.stat(root.ino) != Done {
        return false, 0;
      }
      CountOne(cfg, root.ino, gid);
      leftovers := if gid[root.ino] in cfg.legacy then 1 else 0;
      var done, more := WalkDir(root, cfg, w, false);
      CountConcat(cfg, [root.ino], SeenIn(root, |root.entries|, w), gid);
      return done, leftovers + more;
    }

    /** The root, then everything below it. */
    method MigrateTree(root: Tree, cfg: Config, w: Weather) returns (ok: bool)
      requires Holds(EntriesOf(root))
      modifies this
      ensures OnlyMigrated(cfg, old(gid), gid, EntriesOf(root))
      ensures ok ==> root.Dir? && AllMigrated(cfg, old(gid), gid, SeenFromRoot(root, w))
      ensures root.Dir? && Calm(w) && w.stat(root.ino) == Done && w.open(root.ino) == Done ==> ok
    {
      if !root.Dir? || w.open(root.ino) != Done || w.stat(root.ino) != Done {
        return false;
      }
      if gid[root.ino] in cfg.legacy {
        if !w.chown(root.ino) {
          return false;
        }
        gid := gid[root.ino := cfg.target];
      }
      ghost var mid := gid;
      ghost var below := SeenIn(root, |root.entries|, w);
      assert AllMigrated(cfg, old(gid), mid, [root.ino]);
      var done, _ := WalkDir(root, cfg, w, true);
      OnlyTrans(cfg, old(gid), mid, gid, [root.ino], below);
      SeenAreEntriesIn(root, |root.entries|, w);
      OnlyWiden(cfg, old(gid), gid, [root.ino] + below, EntriesOf(root));
      if done {
        AllTrans(cfg, old(gid), mid, gid, [root.ino], below);
      }
      return done;
    }

    /** `migration` and `recount` are how system calls turn out during the two walks. */
    method Execute(root: Tree, cfg: Config, lock: Lock, migration: Weather, recount: Weather)
      returns (outcome: Outcome)
      requires Holds(EntriesOf(root))
      modifies this
      // Whatever happens, only legacy entries of the tree are touched, and they get the target group.
      ensures OnlyMigrated(cfg, old(gid), gid, EntriesOf(root))
      ensures lock.Held? || lock.Unreadable? ==> gid == old(gid)
      ensures lock.Unreadable? ==> outcome == Error
      ensures lock.Held? && !cfg.failClosed ==> outcome == Exit(0)
      // Fail closed: success is never reported while the recount can see a legacy entry.
      ensures cfg.failClosed && outcome == Exit(0) ==>
                root.Dir? && LegacyFree(cfg, SeenFromRoot(root, recount), gid)
      ensures outcome.Exit? ==> outcome.code <= 1
      // Entries that vanish during the walk are no error, and everything that is met is migrated.
      ensures && root.Dir? && !lock.Unreadable? && !lock.Held? && Calm(migration) && Calm(recount)
              && migration.stat(root.ino) == Done && migration.open(root.ino) == Done
              && recount.stat(root.ino) == Done && recount.open(root.ino) == Done ==>
                && AllMigrated(cfg, old(gid), gid, SeenFromRoot(root, migration))
                && outcome == Exit(if cfg.failClosed && !LegacyFree(cfg, SeenFromRoot(root, recount), gid) then 1 else 0)
      // Without I/O errors the outcome is exact.
      ensures root.Dir? && !lock.Unreadable? && Flawless(migration) && Flawless(recount) ==>
                && outcome.Exit?
                && (!lock.Held? ==> AllMigrated(cfg, old(gid), gid, EntriesOf(root)))
                && (!cfg.failClosed ==> outcome == Exit(0))
                && (cfg.failClosed ==>
                      (outcome == Exit(0) <==> LegacyFree(cfg, EntriesOf(root), gid)))
                && (cfg.failClosed && !lock.Held? ==>
                      (outcome == Exit(0) <==>
                       cfg.target !in cfg.legacy || LegacyFree(cfg, EntriesOf(root), old(gid))))
    {
      if lock.Unreadable? {
        return Error;
      }
      if lock.Held? {
        if !cfg.failClosed {
          return Exit(0);
        }
        outcome := Recount(root, cfg, recount);
        return;
      }
      FlawlessIsCalm(migration);
      FlawlessIsCalm(recount);
      var ok := MigrateTree(root, cfg, migration);
      if root.Dir? && Flawless(migration) {
        AllSeenIn(root, |root.entries|, migration);
        LeftoversAfterMigration(cfg, old(gid), gid, EntriesOf(root));
      }
      if !ok {
        return Error;
      }
      if cfg.failClosed {
        outcome := Recount(root, cfg, recount);
      } else {
        outcome := Exit(0);
      }
    }

    method Recount(root: Tree, cfg: Config, w: Weather) returns (outcome: Outcome)
      requires Holds(EntriesOf(root))
      modifies this
      ensures gid == old(gid)
      ensures outcome.Exit? ==> outcome.code <= 1 && root.Dir?
      ensures outcome == Exit(0) ==> LegacyFree(cfg, SeenFromRoot(root, w), gid)
      ensures root.Dir? && Calm(w) && w.stat(root.ino) == Done && w.open(root.ino) == Done ==>
                outcome == Exit(if LegacyFree(cfg, SeenFromRoot(root, w), gid) then 0 else 1)
      ensures root.Dir? && Flawless(w) ==>
                && outcome.Exit?
                && (outcome == Exit(0) <==> LegacyFree(cfg, EntriesOf(root), gid))
    {
      FlawlessIsCalm(w);
      var ok, leftovers := ScanForLeftovers(root, cfg, w);
      if !ok {
        return Error;
      }
      SeenAreEntriesIn(root, |root.entries|, w);
      CountZero(cfg, SeenFromRoot(root, w), gid);
      if Flawless(w) {
        AllSeenIn(root, |root.entries|, w);
      }
      return Exit(if leftovers > 0 then 1 else 0);
    }
  }

  /** Everything a walk from the root meets, the root included. */
  function SeenFromRoot(root: Tree, w: Weather): (inos: seq<Ino>) {
    [root.ino] + if root.Dir? then SeenIn(root, |root.entries|, w) else []
  }

  /** After a complete migration nothing legacy is left, unless the target group is itself a legacy one. */
  lemma LeftoversAfterMigration(cfg: Config, before: map<Ino, Gid>, after: map<Ino, Gid>, inos: seq<Ino>)
    requires AllMigrated(cfg, before, after, inos)
    ensures LegacyFree(cfg, inos, after) <==> cfg.target !in cfg.legacy || LegacyFree(cfg, inos, before)
  {
    if !LegacyFree(cfg, inos, before) {
      var x :| x in inos && x in before && before[x] in cfg.legacy;
      assert after[x] == cfg.target;
    }
  }

  lemma HeldBelow(dir: Tree, i: nat, gid: map<Ino, Gid>)
    requires dir.Dir? && i < |dir.entries|
    requires forall x :: x in EntriesIn(dir, |dir.entries|) ==> x in gid
    ensures forall x :: x in EntriesOf(dir.entries[i]) ==> x in gid
  {
    EntriesGrow(dir, i + 1, |dir.entries|);
  }

  lemma {:induction false} EntriesGrow(dir: Tree, i: nat, j: nat)
    requires dir.Dir? && i <= j <= |dir.entries|
    ensures forall x :: x in EntriesIn(dir, i) ==> x in EntriesIn(dir, j)
    decreases j
  {
    if i < j {
      EntriesGrow(dir, i, j - 1);
    }
  }
}
