/** The session store: one file per session in a directory, and an index file that must agree with them.
    The directory is a map from file names to contents. */
module SessionStore {
  import opened Sequences
  import opened SessionIndexes
  import opened Texts
  import opened Wrappers

  /** A session file; the pane tree, cwds and anchors travel unread in `payload`. */
  datatype Session = Session(name: string, createdAt: nat, lastOpened: nat, payload: string)

  datatype File = SessionFile(session: Session) | IndexFile(entries: seq<IndexEntry>) | Garbage(text: string)

  type Directory = map<string, File>

  datatype StoreError = InvalidName | AlreadyExists | NotFound | Io

  const EMPTY_PAYLOAD := ""
  const TOML := ".toml"
  const INDEX := "index"

  function EmptySession(name: string, now: nat): Session {
    Session(name, now, now, EMPTY_PAYLOAD)
  }

  predicate NameChar(c: char) {
    'A' <= c <= 'Z' || 'a' <= c <= 'z' || '0' <= c <= '9' || c == '.' || c == '_' || c == '-'
  }

  predicate ValidName(name: string) {
    name != "" && |name| <= 64 && name[0] != '.' && forall i | 0 <= i < |name| :: NameChar(name[i])
  }

  function Path(name: string): string {
    name + TOML
  }

  const INDEX_PATH := Path(INDEX)

  /** A valid name is a plain file name: the session's file lies in the store's directory, is no hidden file,
      and has no separator or blank in its name. */
  lemma NamesStayInside(name: string)
    requires ValidName(name)
    ensures Path(name)[0] != '.' && |Path(name)| <= 64 + |".toml"|
    ensures forall c | c in Path(name) :: c != '/' && c != '\\' && '!' <= c <= '~'
  {
    forall c | c in Path(name)
      ensures c != '/' && c != '\\' && '!' <= c <= '~'
    {
      if c in name {
        var i :| 0 <= i < |name| && name[i] == c;
        assert NameChar(name[i]);
      }
    }
  }

  lemma PathInjective(a: string, b: string)
    requires Path(a) == Path(b)
    ensures a == b
  {
    assert Path(a)[..|a|] == a && Path(b)[..|b|] == b;
  }

  /** Decoding a file as a session. */
  function AsSession(f: File): Option<Session> {
    if f.SessionFile? then Some(f.session) else None
  }

  /** Decoding a file as an index: every index field has a default and unknown fields are ignored, so a
      session's text reads as an index without entries. */
  function AsIndex(f: File): Option<seq<IndexEntry>> {
    match f
    case IndexFile(entries) => Some(entries)
    case SessionFile(_) => Some([])
    case Garbage(_) => None
  }

  // ------------------------------------------------------------------ rebuild

  predicate SessionNamed(dir: Directory, name: string) {
    ValidName(name) && name != INDEX && Path(name) in dir
  }

  /** The name a rebuild reads off a directory entry: nothing for the index, for other suffixes, for
      invalid names and for files that are not sessions. */
  function Scannable(dir: Directory, file: string): Option<string> {
    if file !in dir || file == INDEX_PATH || |file| < 5 || file[|file| - 5..] != TOML then None
    else
      var name := file[..|file| - 5];
      if ValidName(name) && AsSession(dir[file]).Some? then Some(name) else None
  }

  function Scanned(dir: Directory, file: string, entries: seq<IndexEntry>): seq<IndexEntry> {
    var name := Scannable(dir, file);
    if name.None? then entries else Touched(entries, name.value, dir[file].session.lastOpened)
  }

  /** The index rebuilt from the directory, its files listed in the given order; names in `order` that
      the directory does not hold are never listed. */
  function Rebuilt(dir: Directory, order: seq<string>): seq<IndexEntry>
    decreases |order|
  {
    if order == [] then []
    else Scanned(dir, order[|order| - 1], Rebuilt(dir, order[..|order| - 1]))
  }

  ghost predicate Covers(dir: Directory, order: seq<string>) {
    forall name | SessionNamed(dir, name) :: Path(name) in order
  }

  predicate IsEntryOf(dir: Directory, e: IndexEntry) {
    && SessionNamed(dir, e.name)
    && dir[Path(e.name)].SessionFile?
    && dir[Path(e.name)].session.lastOpened == e.lastOpened
  }

  lemma ScannableIs(dir: Directory, file: string)
    ensures Scannable(dir, file).Some? ==>
      var name := Scannable(dir, file).value;
      file == Path(name) && SessionNamed(dir, name) && dir[file].SessionFile?
  {
    if Scannable(dir, file).Some? {
      var name := Scannable(dir, file).value;
      assert file == name + TOML;
      assert name != INDEX;
    }
  }

  lemma ScannableNamed(dir: Directory, name: string)
    requires SessionNamed(dir, name) && dir[Path(name)].SessionFile?
    ensures Scannable(dir, Path(name)) == Some(name)
  {
    if Path(name) == INDEX_PATH {
      PathInjective(name, INDEX);
    }
    assert Path(name)[..|Path(name)| - 5] == name && Path(name)[|name|..] == TOML;
  }

  lemma {:induction false} RebuiltEntries(dir: Directory, order: seq<string>)
    ensures var r := Rebuilt(dir, order);
      && DistinctNames(r) && NewestFirst(r)
      && forall e :: e in r <==> IsEntryOf(dir, e) && Path(e.name) in order
    decreases |order|
  {
    if order != [] {
      var front, file := order[..|order| - 1], order[|order| - 1];
      assert order == front + [file];
      RebuiltEntries(dir, front);
      ScannableIs(dir, file);
      var name := Scannable(dir, file);
      if name.Some? {
        TouchedEntries(Rebuilt(dir, front), name.value, dir[file].session.lastOpened);
      }
      forall e | IsEntryOf(dir, e) && Path(e.name) == file
        ensures name == Some(e.name)
      {
        ScannableNamed(dir, e.name);
      }
    }
  }

  // --------------------------------------------------------------- agreement

  /** Every session-named file is a session that carries its own name. */
  ghost predicate WellFormed(dir: Directory) {
    forall name | SessionNamed(dir, name) ::
      dir[Path(name)].SessionFile? && dir[Path(name)].session.name == name
  }

  /** The stored index; a missing file is an empty one. */
  function StoredIndex(dir: Directory): Option<seq<IndexEntry>> {
    if INDEX_PATH in dir then AsIndex(dir[INDEX_PATH]) else Some([])
  }

  /** `entries` lists exactly the session files, one entry each, with their last-opened times, newest first. */
  ghost predicate Lists(entries: seq<IndexEntry>, dir: Directory) {
    && DistinctNames(entries) && NewestFirst(entries)
    && forall e :: e in entries <==> IsEntryOf(dir, e)
  }

  ghost predicate Agreement(dir: Directory) {
    && WellFormed(dir)
    && (INDEX_PATH in dir ==> dir[INDEX_PATH].IndexFile?)
    && StoredIndex(dir).Some? && Lists(StoredIndex(dir).value, dir)
  }

  // -------------------------------------------------------------- operations

  datatype Op =
    | Create(name: string, now: nat)
    | Rename(from: string, to: string, now: nat)
    | Delete(name: string)
    | Save(session: Session)
    | List

  /** What an operation finds outside: the order in which the file system lists the directory, and the clock. */
  datatype World = World(order: seq<string>, clock: nat)

  /** The name that a malformed file is moved to. */
  function BadName(path: string, clock: nat): string {
    path + ".bad." + Decimal(clock)
  }

  function MovedAside(dir: Directory, path: string, clock: nat): Directory {
    if path in dir then (dir - {path})[BadName(path, clock) := dir[path]] else dir
  }

  datatype Outcome = Outcome(dir: Directory, error: Option<StoreError>)

  /** Reading the index: a malformed file is moved aside and the index rebuilt, but not written back. */
  function AfterRead(dir: Directory, clock: nat): Directory {
    if StoredIndex(dir).Some? then dir else MovedAside(dir, INDEX_PATH, clock)
  }

  function IndexRead(dir: Directory, w: World): seq<IndexEntry> {
    if StoredIndex(dir).Some? then StoredIndex(dir).value else Rebuilt(AfterRead(dir, w.clock), w.order)
  }

  function WriteIndex(dir: Directory, entries: seq<IndexEntry>): Directory {
    dir[INDEX_PATH := IndexFile(entries)]
  }

  function WriteSession(dir: Directory, s: Session): Directory {
    dir[Path(s.name) := SessionFile(s)]
  }

  function Bumped(dir: Directory, name: string, now: nat, w: World): Directory {
    WriteIndex(AfterRead(dir, w.clock), Touched(IndexRead(dir, w), name, now))
  }

  function Apply(dir: Directory, op: Op, w: World): Outcome {
    match op
    case Create(name, now) =>
      if !ValidName(name) then Outcome(dir, Some(InvalidName))
      else if Path(name) in dir then Outcome(dir, Some(AlreadyExists))
      else Outcome(Bumped(WriteSession(dir, EmptySession(name, now)), name, now, w), None)
    case Rename(from, to, now) =>
      if !ValidName(from) || !ValidName(to) then Outcome(dir, Some(InvalidName))
      else if Path(from) !in dir then Outcome(dir, Some(NotFound))
      else if Path(to) in dir then Outcome(dir, Some(AlreadyExists))
      else
        var loaded := LoadedFrom(dir, from, now, w.clock);
        var written := WriteSession(loaded.0, loaded.1.(name := to));
        if Path(from) !in written then Outcome(written, Some(Io))
        else
          var moved := written - {Path(from)};
          Outcome(WriteIndex(AfterRead(moved, w.clock), Renamed(IndexRead(moved, w), from, to)), None)
    case Delete(name) =>
      if !ValidName(name) then Outcome(dir, Some(InvalidName))
      else
        var less := dir - {Path(name)};
        Outcome(WriteIndex(AfterRead(less, w.clock), Without(IndexRead(less, w), name)), None)
    case Save(session) =>
      if !ValidName(session.name) then Outcome(dir, Some(InvalidName))
      else Outcome(Bumped(WriteSession(dir, session), session.name, session.lastOpened, w), None)
    case List => Outcome(AfterRead(dir, w.clock), None)
  }

  /** Loading an existing file: one that does not parse is moved aside and replaced by an empty session. */
  function LoadedFrom(dir: Directory, name: string, now: nat, clock: nat): (Directory, Session)
    requires Path(name) in dir
  {
    if AsSession(dir[Path(name)]).Some? then (dir, AsSession(dir[Path(name)]).value)
    else (MovedAside(dir, Path(name), clock), EmptySession(name, now))
  }

  /** The operations that the collision between the name `index` and the index file turns destructive. */
  predicate Clobbers(dir: Directory, op: Op) {
    match op
    case Create(name, _) => name == INDEX && INDEX_PATH !in dir
    case Rename(from, to, _) => from == INDEX && INDEX_PATH in dir && ValidName(to) && Path(to) !in dir
    case Delete(name) => name == INDEX && StoredIndex(dir) != Some([])
    case Save(session) => session.name == INDEX
    case List => false
  }

  // ------------------------------------------- what writing does to the entries

  lemma WritingSession(dir: Directory, s: Session)
    requires ValidName(s.name) && s.name != INDEX
    ensures var d := WriteSession(dir, s);
      && StoredIndex(d) == StoredIndex(dir) && (INDEX_PATH in d <==> INDEX_PATH in dir)
      && (INDEX_PATH in dir ==> d[INDEX_PATH] == dir[INDEX_PATH])
      && (WellFormed(dir) ==> WellFormed(d))
      && forall e :: IsEntryOf(d, e) <==> e == IndexEntry(s.name, s.lastOpened) || (IsEntryOf(dir, e) && e.name != s.name)
  {
    assert INDEX_PATH != Path(s.name) by {
      if INDEX_PATH == Path(s.name) {
        PathInjective(INDEX, s.name);
      }
    }
    forall name: string | name != s.name
      ensures Path(name) != Path(s.name)
    {
      if Path(name) == Path(s.name) {
        PathInjective(name, s.name);
      }
    }
  }

  lemma RemovingSession(dir: Directory, name: string)
    requires ValidName(name) && name != INDEX
    ensures var d := dir - {Path(name)};
      && StoredIndex(d) == StoredIndex(dir) && (INDEX_PATH in d <==> INDEX_PATH in dir)
      && (INDEX_PATH in dir ==> d[INDEX_PATH] == dir[INDEX_PATH])
      && (WellFormed(dir) ==> WellFormed(d))
      && forall e :: IsEntryOf(d, e) <==> IsEntryOf(dir, e) && e.name != name
  {
    assert INDEX_PATH != Path(name) by {
      if INDEX_PATH == Path(name) {
        PathInjective(INDEX, name);
      }
    }
    forall other: string | other != name
      ensures Path(other) != Path(name)
    {
      if Path(other) == Path(name) {
        PathInjective(other, name);
      }
    }
  }

  /** The index file is no session, whatever it holds, present or not. */
  lemma IndexIsNoSession(dir: Directory, f: File)
    ensures forall e :: IsEntryOf(dir[INDEX_PATH := f], e) <==> IsEntryOf(dir, e)
    ensures forall e :: IsEntryOf(dir - {INDEX_PATH}, e) <==> IsEntryOf(dir, e)
    ensures WellFormed(dir[INDEX_PATH := f]) <==> WellFormed(dir)
    ensures WellFormed(dir - {INDEX_PATH}) <==> WellFormed(dir)
  {
    forall name: string | name != INDEX
      ensures Path(name) != INDEX_PATH
    {
      if Path(name) == INDEX_PATH {
        PathInjective(name, INDEX);
      }
    }
    var d, less := dir[INDEX_PATH := f], dir - {INDEX_PATH};
    assert forall name :: SessionNamed(d, name) <==> SessionNamed(dir, name);
    assert forall name :: SessionNamed(less, name) <==> SessionNamed(dir, name);
    assert forall name | SessionNamed(dir, name) :: d[Path(name)] == dir[Path(name)] == less[Path(name)];
  }

  /** A name with a time at its end is no session's, and not the index's. */
  lemma BadNameIsNoPath(path: string, clock: nat, name: string)
    ensures BadName(path, clock) != Path(name)
  {
    var bad := BadName(path, clock);
    assert bad[|bad| - 1] == Decimal(clock)[|Decimal(clock)| - 1];
    assert Path(name)[|Path(name)| - 1] == 'l';
  }

  /** A file moved aside is gone as far as sessions and index go. */
  lemma AsideIsGone(dir: Directory, path: string, clock: nat)
    ensures var less, aside := dir - {path}, MovedAside(dir, path, clock);
      && (forall name :: SessionNamed(aside, name) <==> SessionNamed(less, name))
      && (forall e :: IsEntryOf(aside, e) <==> IsEntryOf(less, e))
      && (WellFormed(aside) <==> WellFormed(less))
      && (INDEX_PATH in aside <==> INDEX_PATH in less)
      && (INDEX_PATH in aside ==> aside[INDEX_PATH] == less[INDEX_PATH])
  {
    forall name
      ensures BadName(path, clock) != Path(name)
    {
      BadNameIsNoPath(path, clock, name);
    }
    var less, aside := dir - {path}, MovedAside(dir, path, clock);
    forall name
      ensures (Path(name) in aside <==> Path(name) in less) && (Path(name) in aside ==> aside[Path(name)] == less[Path(name)])
    {
    }
  }

  /** Writing an index that lists the sessions makes the directory agree; nothing else does. */
  lemma WritingIndex(dir: Directory, entries: seq<IndexEntry>)
    ensures Agreement(WriteIndex(dir, entries)) <==> WellFormed(dir) && Lists(entries, dir)
  {
    IndexIsNoSession(dir, IndexFile(entries));
  }

  // ------------------------------------------------- each operation, exactly when

  lemma BumpAgrees(dir: Directory, s: Session, w: World)
    requires Agreement(dir) && ValidName(s.name)
    ensures Agreement(Bumped(WriteSession(dir, s), s.name, s.lastOpened, w)) <==> s.name != INDEX
  {
    var d := WriteSession(dir, s);
    var entries := Touched(IndexRead(d, w), s.name, s.lastOpened);
    WritingIndex(d, entries);
    if s.name != INDEX {
      WritingSession(dir, s);
      TouchedEntries(StoredIndex(dir).value, s.name, s.lastOpened);
    } else {
      assert IndexRead(d, w) == [];
      TouchedEntries([], s.name, s.lastOpened);
      assert IndexEntry(s.name, s.lastOpened) in entries && !IsEntryOf(d, IndexEntry(s.name, s.lastOpened));
    }
  }

  lemma DeleteAgrees(dir: Directory, name: string, w: World)
    requires Agreement(dir) && ValidName(name)
    ensures Agreement(Apply(dir, Delete(name), w).dir) <==> !Clobbers(dir, Delete(name))
  {
    var less := dir - {Path(name)};
    var entries := Without(IndexRead(less, w), name);
    WritingIndex(AfterRead(less, w.clock), entries);
    if name != INDEX {
      RemovingSession(dir, name);
      WithoutKeepsNames(StoredIndex(dir).value, name);
      WithoutKeepsOrder(StoredIndex(dir).value, name);
    } else {
      IndexIsNoSession(dir, Garbage(""));
      var stored := StoredIndex(dir).value;
      assert entries == [];
      if stored != [] {
        assert stored[0] in stored && IsEntryOf(less, stored[0]);
      }
    }
  }

  lemma RenameAgrees(dir: Directory, from: string, to: string, now: nat, w: World)
    requires Agreement(dir)
    requires ValidName(from) && ValidName(to) && Path(from) in dir && Path(to) !in dir
    ensures Agreement(Apply(dir, Rename(from, to, now), w).dir) <==> from != INDEX
  {
    if from == INDEX {
      RenamingIndex(dir, to, now, w);
    } else {
      RenamingSession(dir, from, to, now, w);
    }
  }

  lemma RenamingSession(dir: Directory, from: string, to: string, now: nat, w: World)
    requires Agreement(dir) && ValidName(from) && ValidName(to) && Path(from) in dir && Path(to) !in dir && from != INDEX
    ensures Agreement(Apply(dir, Rename(from, to, now), w).dir)
    ensures Apply(dir, Rename(from, to, now), w).error.None? && to != INDEX
  {
    assert SessionNamed(dir, from);
    var s := dir[Path(from)].session;
    var stored := StoredIndex(dir).value;
    assert IsEntryOf(dir, IndexEntry(from, s.lastOpened));
    assert to != INDEX;
    var moved := s.(name := to);
    WritingSession(dir, moved);
    var written := WriteSession(dir, moved);
    RemovingSession(written, from);
    var less := written - {Path(from)};
    WritingIndex(less, Renamed(stored, from, to));
    assert forall i | 0 <= i < |stored| :: stored[i] in stored;
    RenamedEntries(stored, from, to);
  }

  lemma RenamingIndex(dir: Directory, to: string, now: nat, w: World)
    requires Agreement(dir) && ValidName(to) && INDEX_PATH in dir && Path(to) !in dir
    ensures !Agreement(Apply(dir, Rename(INDEX, to, now), w).dir)
    ensures Apply(dir, Rename(INDEX, to, now), w).error == Some(Io)
  {
    var s := EmptySession(INDEX, now).(name := to);
    var aside := MovedAside(dir, INDEX_PATH, w.clock);
    AsideIsGone(dir, INDEX_PATH, w.clock);
    WritingSession(aside, s);
    var written := WriteSession(aside, s);
    assert IsEntryOf(written, IndexEntry(to, now)) && StoredIndex(written) == Some([]);
  }

  /** From agreement, an operation leads to agreement exactly when it is not one of the destructive
      ones on the name `index`; failing operations included. */
  lemma AgreementIff(dir: Directory, op: Op, w: World)
    requires Agreement(dir)
    ensures Agreement(Apply(dir, op, w).dir) <==> !Clobbers(dir, op)
  {
    match op
    case Create(name, now) =>
      if ValidName(name) && Path(name) !in dir {
        BumpAgrees(dir, EmptySession(name, now), w);
      }
    case Rename(from, to, now) =>
      if ValidName(from) && ValidName(to) && Path(from) in dir && Path(to) !in dir {
        RenameAgrees(dir, from, to, now, w);
      }
    case Delete(name) =>
      if ValidName(name) {
        DeleteAgrees(dir, name, w);
      } else {
        assert ValidName(INDEX);
      }
    case Save(session) =>
      if ValidName(session.name) {
        BumpAgrees(dir, session, w);
      } else {
        assert ValidName(INDEX);
      }
    case List =>
  }

  ghost predicate IsRun(dirs: seq<Directory>, ops: seq<Op>, worlds: seq<World>) {
    && |dirs| == |ops| + 1 == |worlds| + 1
    && dirs[0] == map[]
    && forall i | 0 <= i < |ops| :: dirs[i + 1] == Apply(dirs[i], ops[i], worlds[i]).dir
  }

  /** Every run from an empty directory keeps index and sessions in agreement as long as no operation is destructive. */
  lemma {:induction false} EveryRunAgrees(dirs: seq<Directory>, ops: seq<Op>, worlds: seq<World>, n: nat)
    requires IsRun(dirs, ops, worlds) && n <= |ops|
    requires forall i | 0 <= i < n :: !Clobbers(dirs[i], ops[i])
    ensures Agreement(dirs[n])
  {
    if n > 0 {
      EveryRunAgrees(dirs, ops, worlds, n - 1);
      AgreementIff(dirs[n - 1], ops[n - 1], worlds[n - 1]);
    }
  }

  /** A destructive run: creating a session called `index` in an empty directory. */
  lemma IndexNameCollides(w: World)
    ensures Agreement(map[])
    ensures Apply(map[], Create(INDEX, 5), w).error.None?
    ensures Apply(map[], Create(INDEX, 5), w).dir == map[INDEX_PATH := IndexFile([IndexEntry(INDEX, 5)])]
    ensures !Agreement(Apply(map[], Create(INDEX, 5), w).dir)
  {
    assert ValidName(INDEX);
    AgreementIff(map[], Create(INDEX, 5), w);
    assert Touched([], INDEX, 5) == [IndexEntry(INDEX, 5)];
  }

  // ----------------------------------------------------------------- recovery

  /** Rebuilding from the files, listed in any w, gives the stored entries, and the very same list
      when no two sessions were opened at the same time. */
  lemma RebuildRecreates(dir: Directory, w: World)
    requires Agreement(dir) && Covers(dir, w.order)
    ensures Lists(Rebuilt(dir, w.order), dir)
    ensures (forall a, b | IsEntryOf(dir, a) && IsEntryOf(dir, b) && a.lastOpened == b.lastOpened :: a == b) ==>
              Rebuilt(dir, w.order) == StoredIndex(dir).value
  {
    RebuiltEntries(dir, w.order);
    if forall a, b | IsEntryOf(dir, a) && IsEntryOf(dir, b) && a.lastOpened == b.lastOpened :: a == b {
      SameEntriesSameList(Rebuilt(dir, w.order), StoredIndex(dir).value);
    }
  }

  /** The sessions are fine but the index no longer parses. */
  ghost predicate IndexCorrupt(dir: Directory) {
    WellFormed(dir) && INDEX_PATH in dir && dir[INDEX_PATH].Garbage?
  }

  predicate Avoids(op: Op, name: string) {
    match op
    case Create(n, _) => n != name
    case Rename(from, to, _) => from != name && to != name
    case Delete(n) => n != name
    case Save(s) => s.name != name
    case List => true
  }

  lemma RebuiltLists(dir: Directory, w: World)
    requires IndexCorrupt(dir) && Covers(AfterRead(dir, w.clock), w.order)
    ensures WellFormed(AfterRead(dir, w.clock)) && Lists(IndexRead(dir, w), AfterRead(dir, w.clock)) && Lists(IndexRead(dir, w), dir)
  {
    IndexIsNoSession(dir, Garbage(""));
    AsideIsGone(dir, INDEX_PATH, w.clock);
    RebuiltEntries(AfterRead(dir, w.clock), w.order);
  }

  /** Any succeeding operation that writes the index repairs a corrupt one. */
  lemma WritesRecover(dir: Directory, op: Op, w: World)
    requires IndexCorrupt(dir) && Avoids(op, INDEX) && !op.List? && Apply(dir, op, w).error.None?
    requires Covers(Apply(dir, op, w).dir, w.order)
    ensures Agreement(Apply(dir, op, w).dir)
  {
    match op
    case Create(name, now) =>
      RecoverByBump(dir, EmptySession(name, now), w);
    case Save(session) =>
      RecoverByBump(dir, session, w);
    case Delete(name) =>
      RemovingSession(dir, name);
      var less := dir - {Path(name)};
      RebuiltLists(less, w);
      var entries := IndexRead(less, w);
      WithoutKeepsNames(entries, name);
      WithoutKeepsOrder(entries, name);
      WritingIndex(AfterRead(less, w.clock), Without(entries, name));
    case Rename(from, to, now) =>
      RecoverByRename(dir, from, to, now, w);
  }

  lemma RecoverByBump(dir: Directory, s: Session, w: World)
    requires IndexCorrupt(dir) && ValidName(s.name) && s.name != INDEX
    requires Covers(Bumped(WriteSession(dir, s), s.name, s.lastOpened, w), w.order)
    ensures Agreement(Bumped(WriteSession(dir, s), s.name, s.lastOpened, w))
  {
    WritingSession(dir, s);
    var d := WriteSession(dir, s);
    RebuiltLists(d, w);
    TouchedEntries(IndexRead(d, w), s.name, s.lastOpened);
    WritingIndex(AfterRead(d, w.clock), Touched(IndexRead(d, w), s.name, s.lastOpened));
  }

  lemma RecoverByRename(dir: Directory, from: string, to: string, now: nat, w: World)
    requires IndexCorrupt(dir) && from != INDEX && to != INDEX && Apply(dir, Rename(from, to, now), w).error.None?
    requires Covers(Apply(dir, Rename(from, to, now), w).dir, w.order)
    ensures Agreement(Apply(dir, Rename(from, to, now), w).dir)
  {
    assert SessionNamed(dir, from);
    var moved := dir[Path(from)].session.(name := to);
    WritingSession(dir, moved);
    var written := WriteSession(dir, moved);
    RemovingSession(written, from);
    var less := written - {Path(from)};
    RebuiltLists(less, w);
    var entries := IndexRead(less, w);
    NotListed(entries, from, less);
    WritingIndex(AfterRead(less, w.clock), entries);
  }

  lemma NotListed(entries: seq<IndexEntry>, name: string, dir: Directory)
    requires Lists(entries, dir) && Path(name) !in dir
    ensures forall to :: Renamed(entries, name, to) == entries
  {
    assert forall i | 0 <= i < |entries| :: entries[i] in entries;
  }

  /** Listing does not write the rebuilt index back: the first listing is right, and every later one is
      empty. The directory is back in agreement only if there was no session to lose. */
  lemma ListingLosesRebuild(dir: Directory, w: World, later: World)
    requires IndexCorrupt(dir) && Covers(dir, w.order)
    ensures Lists(IndexRead(dir, w), dir)
    ensures IndexRead(Apply(dir, List, w).dir, later) == []
    ensures Agreement(Apply(dir, List, w).dir) <==> forall e :: !IsEntryOf(dir, e)
  {
    IndexIsNoSession(dir, Garbage(""));
    AsideIsGone(dir, INDEX_PATH, w.clock);
    RebuiltLists(dir, w);
  }

  // ------------------------------------------------------ what operations leave

  /** No operation touches the file of a session it does not name. */
  lemma OthersUntouched(dir: Directory, op: Op, w: World, name: string)
    requires name != INDEX && Avoids(op, name)
    ensures var d := Apply(dir, op, w).dir;
      (Path(name) in d <==> Path(name) in dir) && (Path(name) in dir ==> d[Path(name)] == dir[Path(name)])
  {
    forall path: string
      ensures BadName(path, w.clock) != Path(name)
    {
      BadNameIsNoPath(path, w.clock, name);
    }
    forall other: string | other != name
      ensures Path(other) != Path(name)
    {
      if Path(other) == Path(name) {
        PathInjective(other, name);
      }
    }
  }

  /** In every run, a session's file stays what it is until an operation names that session. */
  lemma {:induction false} FilesStay(dirs: seq<Directory>, ops: seq<Op>, worlds: seq<World>, m: nat, n: nat, name: string)
    requires IsRun(dirs, ops, worlds) && m <= n <= |ops| && name != INDEX
    requires forall i | m <= i < n :: Avoids(ops[i], name)
    ensures Path(name) in dirs[n] <==> Path(name) in dirs[m]
    ensures Path(name) in dirs[m] ==> dirs[n][Path(name)] == dirs[m][Path(name)]
    decreases n
  {
    if m < n {
      FilesStay(dirs, ops, worlds, m, n - 1, name);
      assert dirs[n] == Apply(dirs[n - 1], ops[n - 1], worlds[n - 1]).dir;
      OthersUntouched(dirs[n - 1], ops[n - 1], worlds[n - 1], name);
    }
  }

  // ------------------------------------------------ the store as a plain map

  /** What the sessions are, by name, when files and index are forgotten. */
  type Sessions = map<string, Session>

  /** What an operation does to them, and how it fails. */
  function Effect(m: Sessions, op: Op): (Sessions, Option<StoreError>) {
    match op
    case Create(name, now) =>
      if !ValidName(name) then (m, Some(InvalidName))
      else if name in m then (m, Some(AlreadyExists))
      else (m[name := Session(name, now, now, "")], None)
    case Rename(from, to, _) =>
      if !ValidName(from) || !ValidName(to) then (m, Some(InvalidName))
      else if from !in m then (m, Some(NotFound))
      else if to in m then (m, Some(AlreadyExists))
      else ((m - {from})[to := m[from].(name := to)], None)
    case Delete(name) => if ValidName(name) then (m - {name}, None) else (m, Some(InvalidName))
    case Save(s) => if ValidName(s.name) then (m[s.name := s], None) else (m, Some(InvalidName))
    case List => (m, None)
  }

  function EffectOf(ops: seq<Op>): Sessions {
    if ops == [] then map[] else Effect(EffectOf(ops[..|ops| - 1]), ops[|ops| - 1]).0
  }

  /** What loading `name` gives: the session, and the directory it leaves. */
  function LoadOf(dir: Directory, name: string, now: nat, clock: nat): (Directory, Result<Session, StoreError>) {
    if !ValidName(name) then (dir, Failure(InvalidName))
    else if Path(name) !in dir then (dir, Failure(NotFound))
    else (LoadedFrom(dir, name, now, clock).0, Success(LoadedFrom(dir, name, now, clock).1))
  }

  /** The files are those sessions. */
  ghost predicate Stores(dir: Directory, m: Sessions) {
    && (forall name | name in m :: ValidName(name) && name != INDEX && Path(name) in dir && dir[Path(name)] == SessionFile(m[name]))
    && (forall name | ValidName(name) && name != INDEX && Path(name) in dir :: name in m)
  }

  /** One name of it. */
  ghost predicate StoresAt(dir: Directory, m: Sessions, name: string) {
    && (name in m ==> ValidName(name) && name != INDEX && Path(name) in dir && dir[Path(name)] == SessionFile(m[name]))
    && (ValidName(name) && name != INDEX && Path(name) in dir ==> name in m)
  }

  lemma StoresByName(dir: Directory, m: Sessions)
    ensures Stores(dir, m) <==> forall name :: StoresAt(dir, m, name)
  {
    if Stores(dir, m) {
      forall name
        ensures StoresAt(dir, m, name)
      {
      }
    }
    if forall name :: StoresAt(dir, m, name) {
      forall name | name in m
        ensures ValidName(name) && name != INDEX && Path(name) in dir && dir[Path(name)] == SessionFile(m[name])
      {
        assert StoresAt(dir, m, name);
      }
      forall name | ValidName(name) && name != INDEX && Path(name) in dir
        ensures name in m
      {
        assert StoresAt(dir, m, name);
      }
    }
  }

  lemma StepStoresOther(dir: Directory, m: Sessions, op: Op, w: World, name: string)
    requires StoresAt(dir, m, name) && name != INDEX && Avoids(op, name)
    ensures StoresAt(Apply(dir, op, w).dir, Effect(m, op).0, name)
  {
    OthersUntouched(dir, op, w, name);
  }

  /** An operation changes the files as it changes the map, and fails as it does. */
  lemma StepStores(dir: Directory, m: Sessions, op: Op, w: World)
    requires Agreement(dir) && Stores(dir, m) && Avoids(op, INDEX)
    ensures Stores(Apply(dir, op, w).dir, Effect(m, op).0) && Apply(dir, op, w).error == Effect(m, op).1
  {
    StoresByName(dir, m);
    StoresByName(Apply(dir, op, w).dir, Effect(m, op).0);
    forall name
      ensures StoresAt(Apply(dir, op, w).dir, Effect(m, op).0, name)
    {
      assert StoresAt(dir, m, name);
      if name != INDEX {
        if Avoids(op, name) {
          StepStoresOther(dir, m, op, w, name);
        } else {
          StepStoresNamed(dir, m, op, w, name);
        }
      }
    }
  }

  lemma StepStoresNamed(dir: Directory, m: Sessions, op: Op, w: World, name: string)
    requires Agreement(dir) && Stores(dir, m) && Avoids(op, INDEX) && name != INDEX && !Avoids(op, name)
    ensures StoresAt(Apply(dir, op, w).dir, Effect(m, op).0, name)
  {
    forall other: string | other != name
      ensures Path(other) != Path(name)
    {
      if Path(other) == Path(name) {
        PathInjective(other, name);
      }
    }
  }

  /** In every run from nothing on names other than `index`, the store is that map: loading a name gives the
      session last created, saved or renamed under it, with all it holds, and leaves the directory alone. */
  lemma {:induction false} StoreIsAMap(dirs: seq<Directory>, ops: seq<Op>, worlds: seq<World>, n: nat, name: string, now: nat, clock: nat)
    requires IsRun(dirs, ops, worlds) && n <= |ops| && name != INDEX
    requires forall i | 0 <= i < n :: Avoids(ops[i], INDEX)
    ensures Agreement(dirs[n]) && Stores(dirs[n], EffectOf(ops[..n]))
    ensures LoadOf(dirs[n], name, now, clock) == (dirs[n],
      if !ValidName(name) then Failure(InvalidName)
      else if name in EffectOf(ops[..n]) then Success(EffectOf(ops[..n])[name])
      else Failure(NotFound))
    ensures n < |ops| && Avoids(ops[n], INDEX) ==>
      Apply(dirs[n], ops[n], worlds[n]).error == Effect(EffectOf(ops[..n]), ops[n]).1
  {
    if n > 0 {
      StoreIsAMap(dirs, ops, worlds, n - 1, name, now, clock);
      assert ops[..n][..n - 1] == ops[..n - 1];
      AgreementIff(dirs[n - 1], ops[n - 1], worlds[n - 1]);
      StepStores(dirs[n - 1], EffectOf(ops[..n - 1]), ops[n - 1], worlds[n - 1]);
    }
    if n < |ops| && Avoids(ops[n], INDEX) {
      StepStores(dirs[n], EffectOf(ops[..n]), ops[n], worlds[n]);
    }
  }

  /** The file `path` is gone from `dir`, its content stands under `aside`, and the other files are as they were. */
  ghost predicate MovedTo(dir: Directory, after: Directory, path: string, aside: string) {
    && path in dir && path !in after
    && aside in after && after[aside] == dir[path]
    && forall p | p != path && p != aside :: (p in after <==> p in dir) && (p in dir ==> after[p] == dir[p])
  }

  /** A corrupt session file or index is never lost: it stands under its name, `.bad.` and the time. Loading the
      session gives a new one of that name. */
  lemma CorruptFilesAreKept(dir: Directory, name: string, now: nat, clock: nat)
    requires ValidName(name) && Path(name) in dir
    ensures !dir[Path(name)].SessionFile? ==>
      var loaded := LoadOf(dir, name, now, clock);
      && loaded.1 == Success(Session(name, now, now, ""))
      && MovedTo(dir, loaded.0, name + ".toml", name + ".toml.bad." + Decimal(clock))
    ensures name == "index" && dir[Path(name)].Garbage? ==>
      MovedTo(dir, AfterRead(dir, clock), "index.toml", "index.toml.bad." + Decimal(clock))
  {
    var path, aside := Path(name), BadName(Path(name), clock);
    assert |aside| > |path|;
    assert aside == name + ".toml.bad." + Decimal(clock) by {
      assert TOML + ".bad." == ".toml.bad.";
      Regroup(name, TOML, ".bad.");
    }
    assert "index" + ".toml" == "index.toml" && "index" + ".toml.bad." == "index.toml.bad.";
    assert path in dir ==> MovedTo(dir, MovedAside(dir, path, clock), path, aside);
  }

  /** Whatever the directory holds, a corrupt index or an older file of that name included: what was saved is
      what is loaded. */
  lemma SavedIsLoaded(dir: Directory, s: Session, w: World, now: nat, clock: nat)
    requires ValidName(s.name) && s.name != INDEX
    ensures var saved := Apply(dir, Save(s), w);
      saved.error.None? && LoadOf(saved.dir, s.name, now, clock) == (saved.dir, Success(s))
  {
    BadNameIsNoPath(INDEX_PATH, w.clock, s.name);
    if Path(s.name) == INDEX_PATH {
      PathInjective(s.name, INDEX);
    }
  }

  /** A rename of a session file, spelt out. */
  lemma RenameResult(dir: Directory, a: string, b: string, now: nat, w: World)
    requires StoredIndex(dir).Some? && ValidName(a) && ValidName(b) && a != INDEX && b != INDEX
    requires Path(a) in dir && dir[Path(a)].SessionFile? && Path(b) !in dir
    ensures Apply(dir, Rename(a, b, now), w) == Outcome(
      (dir[Path(b) := SessionFile(dir[Path(a)].session.(name := b))] - {Path(a)})
        [INDEX_PATH := IndexFile(Renamed(StoredIndex(dir).value, a, b))], None)
  {
    var moved := dir[Path(a)].session.(name := b);
    WritingSession(dir, moved);
    RemovingSession(WriteSession(dir, moved), a);
  }

  /** Renaming there and back restores the directory to the letter, index included. */
  lemma RenameThereAndBack(dir: Directory, a: string, b: string, now: nat, w: World)
    requires Agreement(dir) && ValidName(a) && ValidName(b) && a != INDEX && Path(a) in dir && Path(b) !in dir
    ensures var there := Apply(dir, Rename(a, b, now), w);
      there.error.None? && Apply(there.dir, Rename(b, a, now), w) == Outcome(dir, None)
  {
    RenamingSession(dir, a, b, now, w);
    assert SessionNamed(dir, a);
    RenameResult(dir, a, b, now, w);
    var stored, s := StoredIndex(dir).value, dir[Path(a)].session;
    assert IndexEntry(a, s.lastOpened) in stored && INDEX_PATH in dir by {
      assert IsEntryOf(dir, IndexEntry(a, s.lastOpened));
    }
    assert forall i | 0 <= i < |stored| :: stored[i] in stored;
    RenamedBack(stored, a, b);
    PathsApart(a, b);
    var there := Apply(dir, Rename(a, b, now), w).dir;
    RenameResult(there, b, a, now, w);
    assert s.(name := b).(name := a) == s;
    MovedBack(dir, Path(a), Path(b), SessionFile(s.(name := b)), IndexFile(Renamed(stored, a, b)));
  }

  lemma MovedBack(dir: Directory, pa: string, pb: string, f: File, index: File)
    requires pa in dir && pb !in dir && INDEX_PATH in dir && pa != INDEX_PATH && pb != INDEX_PATH
    ensures var there := (dir[pb := f] - {pa})[INDEX_PATH := index];
      (there[pa := dir[pa]] - {pb})[INDEX_PATH := dir[INDEX_PATH]] == dir
  {
  }

  lemma PathsApart(a: string, b: string)
    ensures a != INDEX ==> Path(a) != INDEX_PATH
    ensures b != INDEX ==> Path(b) != INDEX_PATH
  {
    if Path(a) == INDEX_PATH {
      PathInjective(a, INDEX);
    }
    if Path(b) == INDEX_PATH {
      PathInjective(b, INDEX);
    }
  }

  lemma RenamedBack(s: seq<IndexEntry>, a: string, b: string)
    requires DistinctNames(s) && !HasName(s, b)
    ensures Renamed(Renamed(s, a, b), b, a) == s
  {
    var r, i := Renamed(s, a, b), Position(s, a);
    if i < |s| {
      PositionUnique(r, b, i);
    } else {
      PositionUnique(s, b, |s|);
    }
  }

  // ---------------------------------------------------------------- the store

  /** The store itself, writing and removing files step by step. */
  class Store {
    var dir: Directory

    constructor ()
      ensures dir == map[]
    {
      dir := map[];
    }

    method Create(name: string, now: nat, w: World) returns (r: Result<Session, StoreError>)
      modifies this
      ensures Outcome(dir, ErrorOf(r)) == Apply(old(dir), Op.Create(name, now), w)
      ensures r.Success? ==> r.value == EmptySession(name, now)
    {
      if !ValidName(name) {
        return Failure(InvalidName);
      }
      if Path(name) in dir {
        return Failure(AlreadyExists);
      }
      var session := EmptySession(name, now);
      WriteSessionFile(session);
      BumpIndex(name, now, w);
      return Success(session);
    }

    method Rename(from: string, to: string, now: nat, w: World) returns (r: Result<(), StoreError>)
      modifies this
      ensures Outcome(dir, ErrorOf(r)) == Apply(old(dir), Op.Rename(from, to, now), w)
    {
      if !ValidName(from) || !ValidName(to) {
        return Failure(InvalidName);
      }
      var src, dst := Path(from), Path(to);
      if src !in dir {
        return Failure(NotFound);
      }
      if dst in dir {
        return Failure(AlreadyExists);
      }
      var loaded := Load(from, now, w.clock);
      var session := loaded.value.(name := to);
      WriteSessionFile(session);
      if src !in dir {
        return Failure(Io);
      }
      dir := dir - {src};
      var entries := ReadIndex(w);
      var index := new SessionIndex(entries);
      index.Rename(from, to);
      WriteIndexFile(index.entries);
      return Success(());
    }

    method Delete(name: string, w: World) returns (r: Result<(), StoreError>)
      modifies this
      ensures Outcome(dir, ErrorOf(r)) == Apply(old(dir), Op.Delete(name), w)
    {
      if !ValidName(name) {
        return Failure(InvalidName);
      }
      var p := Path(name);
      if p in dir {
        dir := dir - {p};
      }
      assert dir == old(dir) - {p};
      var entries := ReadIndex(w);
      var index := new SessionIndex(entries);
      index.Remove(name);
      WriteIndexFile(index.entries);
      return Success(());
    }

    method Load(name: string, now: nat, clock: nat) returns (r: Result<Session, StoreError>)
      modifies this
      ensures !ValidName(name) ==> r == Failure(InvalidName) && dir == old(dir)
      ensures ValidName(name) && Path(name) !in old(dir) ==> r == Failure(NotFound) && dir == old(dir)
      ensures ValidName(name) && Path(name) in old(dir) ==>
                r.Success? && (dir, r.value) == LoadedFrom(old(dir), name, now, clock)
      ensures (dir, r) == LoadOf(old(dir), name, now, clock)
    {
      if !ValidName(name) {
        return Failure(InvalidName);
      }
      var path := Path(name);
      if path !in dir {
        return Failure(NotFound);
      }
      var parsed := AsSession(dir[path]);
      if parsed.Some? {
        return Success(parsed.value);
      }
      RenameAside(path, clock);
      return Success(EmptySession(name, now));
    }

    method List(w: World) returns (entries: seq<IndexEntry>)
      modifies this
      ensures Outcome(dir, None) == Apply(old(dir), Op.List, w)
      ensures entries == IndexRead(old(dir), w)
    {
      entries := ReadIndex(w);
    }

    method Save(session: Session, w: World) returns (r: Result<(), StoreError>)
      modifies this
      ensures Outcome(dir, ErrorOf(r)) == Apply(old(dir), Op.Save(session), w)
    {
      if !ValidName(session.name) {
        return Failure(InvalidName);
      }
      WriteSessionFile(session);
      BumpIndex(session.name, session.lastOpened, w);
      return Success(());
    }

    method WriteSessionFile(session: Session)
      modifies this
      ensures dir == WriteSession(old(dir), session)
    {
      dir := dir[Path(session.name) := SessionFile(session)];
    }

    method ReadIndex(w: World) returns (entries: seq<IndexEntry>)
      modifies this
      ensures dir == AfterRead(old(dir), w.clock) && entries == IndexRead(old(dir), w)
    {
      if INDEX_PATH !in dir {
        return [];
      }
      var parsed := AsIndex(dir[INDEX_PATH]);
      if parsed.Some? {
        return parsed.value;
      }
      RenameAside(INDEX_PATH, w.clock);
      entries := RebuildIndexFromSessions(w.order);
    }

    method WriteIndexFile(entries: seq<IndexEntry>)
      modifies this
      ensures dir == WriteIndex(old(dir), entries)
    {
      dir := dir[INDEX_PATH := IndexFile(entries)];
    }

    method BumpIndex(name: string, now: nat, w: World)
      modifies this
      ensures dir == Bumped(old(dir), name, now, w)
    {
      var entries := ReadIndex(w);
      var index := new SessionIndex(entries);
      index.Touch(name, now);
      WriteIndexFile(index.entries);
    }

    method RenameAside(path: string, clock: nat)
      modifies this
      ensures dir == MovedAside(old(dir), path, clock)
    {
      if path in dir {
        dir := (dir - {path})[BadName(path, clock) := dir[path]];
      }
    }

    method RebuildIndexFromSessions(order: seq<string>) returns (entries: seq<IndexEntry>)
      ensures entries == Rebuilt(dir, order)
    {
      var index := new SessionIndex([]);
      for i := 0 to |order|
        invariant index.entries == Rebuilt(dir, order[..i])
      {
        var file := order[i];
        assert order[..i + 1][..i] == order[..i];
        if file !in dir {
          continue;
        }
        if file == INDEX_PATH {
          continue;
        }
        if |file| < 5 || file[|file| - 5..] != TOML {
          continue;
        }
        var name := file[..|file| - 5];
        if !ValidName(name) {
          continue;
        }
        var parsed := AsSession(dir[file]);
        if parsed.Some? {
          index.Touch(name, parsed.value.lastOpened);
        }
      }
      assert order[..|order|] == order;
      return index.entries;
    }
  }

  function ErrorOf<T>(r: Result<T, StoreError>): Option<StoreError> {
    if r.Failure? then Some(r.error) else None
  }
}
