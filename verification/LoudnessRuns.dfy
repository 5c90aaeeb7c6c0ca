/** Whole runs of the loudness cache: what every identity reads back, and which identities are stale. */
module LoudnessRuns {
  import opened Outcomes
  import opened LoudnessIdentity
  import opened LoudnessStore

  datatype Command =
    | Reopen
    | Upsert(track: Track)
    | Batch(tracks: seq<Track>)
    | AlbumGain(sources: seq<Identity>, gain: real)
    | Delete(source: Identity)

  // ---------- what the rows become ----------

  predicate Acceptable(platform: Platform, c: Command) {
    && (c.Upsert? ==> Storable(platform, c.track.source))
    && (c.Batch? ==> forall t :: t in c.tracks ==> Storable(platform, t.source))
  }

  ghost function Step(platform: Platform, rows: Rows, c: Command): Rows
    requires Acceptable(platform, c)
  {
    if c.Upsert? then
      if Upserted(platform, rows, c.track).Ok? then Upserted(platform, rows, c.track).value else rows
    else if c.Batch? then
      if UpsertedAll(platform, rows, c.tracks).Ok? then UpsertedAll(platform, rows, c.tracks).value else rows
    else if c.AlbumGain? then WithAlbumGains(rows, c.sources, c.gain)
    else if c.Delete? then rows - {c.source.cacheId}
    else rows
  }

  ghost function After(platform: Platform, cs: seq<Command>): Rows
    requires forall c :: c in cs ==> Acceptable(platform, c)
  {
    if cs == [] then map[] else Step(platform, After(platform, cs[..|cs| - 1]), cs[|cs| - 1])
  }

  method Execute(db: LoudnessDatabase, c: Command)
    requires db.Current() && Acceptable(db.env.platform, c)
    modifies db
    ensures db.Current() && db.rows == Step(db.env.platform, old(db.rows), c)
  {
    if c.Reopen? {
      db.InitSchema();
    } else if c.Upsert? {
      var _ := db.Upsert(c.track);
    } else if c.Batch? {
      var _ := db.BatchUpsert(c.tracks);
    } else if c.AlbumGain? {
      db.SetAlbumGain(c.sources, c.gain);
    } else {
      var _ := db.Delete(c.source);
    }
  }

  /** Opening a file without a current table and executing the commands leaves the rows of the run. */
  method Session(db: LoudnessDatabase, cs: seq<Command>)
    requires forall c :: c in cs ==> Acceptable(db.env.platform, c)
    requires !db.Current()
    modifies db
    ensures db.Current() && db.rows == After(db.env.platform, cs)
  {
    db.InitSchema();
    for i := 0 to |cs|
      invariant db.Current() && db.rows == After(db.env.platform, cs[..i])
    {
      assert cs[..i + 1][..i] == cs[..i];
      Execute(db, cs[i]);
    }
    assert cs[..|cs|] == cs;
  }

  // ---------- what was last written for one identity ----------

  /** The last record of a batch for an identity, or what was there before it. */
  ghost function LastOf(ts: seq<Track>, s: Identity, before: Option<Track>): Option<Track> {
    if ts == [] then before
    else if ts[|ts| - 1].source == s then Some(ts[|ts| - 1])
    else LastOf(ts[..|ts| - 1], s, before)
  }

  ghost function WithGain(t: Option<Track>, gain: real): Option<Track> {
    if t.Some? then Some(t.value.(albumGainDb := Some(gain))) else None
  }

  ghost function WrittenStep(before: Option<Track>, c: Command, s: Identity): Option<Track> {
    if c.Upsert? && c.track.source == s then Some(c.track)
    else if c.Batch? then LastOf(c.tracks, s, before)
    else if c.AlbumGain? && s in c.sources then WithGain(before, c.gain)
    else if c.Delete? && c.source == s then None
    else before
  }

  /** What a run last wrote for an identity, read off its commands without any table, key or encoding. */
  ghost function Written(cs: seq<Command>, s: Identity): Option<Track> {
    if cs == [] then None else WrittenStep(Written(cs[..|cs| - 1], s), cs[|cs| - 1], s)
  }

  // ---------- the locations a run speaks of ----------

  ghost predicate Sound(env: Environment, known: set<Location>) {
    WellBehaved(env) && CollisionFree(env, known)
  }

  /** An identity made from one of the known locations. */
  ghost predicate Genuine(env: Environment, known: set<Location>, s: Identity) {
    exists l :: l in known && Nameable(env.platform, l) && s == FromLocation(env, l)
  }

  /** A command whose identities all come from known locations. */
  ghost predicate Speaks(env: Environment, known: set<Location>, c: Command) {
    && (c.Upsert? ==> Genuine(env, known, c.track.source))
    && (c.Batch? ==> forall t :: t in c.tracks ==> Genuine(env, known, t.source))
    && (c.AlbumGain? ==> forall s :: s in c.sources ==> Genuine(env, known, s))
    && (c.Delete? ==> Genuine(env, known, c.source))
  }

  lemma GenuineKeys(env: Environment, known: set<Location>, s: Identity, t: Identity)
    requires Sound(env, known) && Genuine(env, known, s) && Genuine(env, known, t)
    ensures s.cacheId == t.cacheId <==> s == t
    ensures Storable(env.platform, s)
  {
    var a :| a in known && Nameable(env.platform, a) && s == FromLocation(env, a);
    var b :| b in known && Nameable(env.platform, b) && t == FromLocation(env, b);
    KeysDistinguish(env, known, a, b);
  }

  /** The row of a genuine identity's record meets the constraints and reads back as that record. */
  lemma GenuineRow(env: Environment, known: set<Location>, t: Track)
    requires Sound(env, known) && Genuine(env, known, t.source)
    ensures Storable(env.platform, t.source)
    ensures Checked(RowOf(env.platform, t)) && TrackOf(env, t.source.cacheId, RowOf(env.platform, t)) == Ok(t)
  {
    hide WellBehaved, CollisionFree;
    var l :| l in known && Nameable(env.platform, l) && t.source == FromLocation(env, l);
    IdentityRoundTrip(env, l);
  }

  /** The table holds this record, or none, under the identity's key. */
  ghost predicate Holds(platform: Platform, rows: Rows, s: Identity, t: Option<Track>) {
    if t.None? then s.cacheId !in rows
    else
      && t.value.source == s && Storable(platform, s) && s.cacheId in rows
      && rows[s.cacheId] == RowOf(platform, t.value)
  }

  /** Every key belongs to a known location, and every known identity holds what was last written for it. */
  ghost predicate Agrees(env: Environment, known: set<Location>, rows: Rows, last: Identity -> Option<Track>) {
    && (forall id :: id in rows ==> exists s :: Genuine(env, known, s) && s.cacheId == id)
    && (forall s :: Genuine(env, known, s) ==> Holds(env.platform, rows, s, last(s)))
  }

  /** Writing a record under its key changes what is held for its own identity alone. */
  lemma UpsertHolds(platform: Platform, rows: Rows, t: Track, s: Identity, before: Option<Track>)
    requires Storable(platform, t.source) && Storable(platform, s)
    requires (s.cacheId == t.source.cacheId <==> s == t.source) && Holds(platform, rows, s, before)
    ensures Holds(platform, rows[t.source.cacheId := RowOf(platform, t)], s, if t.source == s then Some(t) else before)
  {
    hide RowOf, Storable;
  }

  lemma UpsertAgrees(env: Environment, known: set<Location>, rows: Rows, last: Identity -> Option<Track>, t: Track,
    next: Identity -> Option<Track>)
    requires Sound(env, known) && Genuine(env, known, t.source) && Agrees(env, known, rows, last)
    requires forall s :: next(s) == if t.source == s then Some(t) else last(s)
    ensures Storable(env.platform, t.source) && Upserted(env.platform, rows, t).Ok?
    ensures Agrees(env, known, Upserted(env.platform, rows, t).value, next)
  {
    hide Sound, Genuine, Checked, Holds, RowOf, Storable, TrackOf;
    GenuineRow(env, known, t);
    var after := Upserted(env.platform, rows, t).value;
    forall s | Genuine(env, known, s) ensures Holds(env.platform, after, s, next(s)) {
      GenuineKeys(env, known, s, t.source);
      UpsertHolds(env.platform, rows, t, s, last(s));
    }
    assert Genuine(env, known, t.source);
  }

  lemma {:induction false} BatchAgrees(env: Environment, known: set<Location>, rows: Rows,
      last: Identity -> Option<Track>, ts: seq<Track>, next: Identity -> Option<Track>)
    requires Sound(env, known) && Agrees(env, known, rows, last)
    requires forall t :: t in ts ==> Genuine(env, known, t.source) && Storable(env.platform, t.source)
    requires forall s :: next(s) == LastOf(ts, s, last(s))
    ensures UpsertedAll(env.platform, rows, ts).Ok?
    ensures Agrees(env, known, UpsertedAll(env.platform, rows, ts).value, next)
  {
    hide Sound, Genuine, Holds;
    if ts != [] {
      var front, t := ts[..|ts| - 1], ts[|ts| - 1];
      var middle := (s: Identity) => LastOf(front, s, last(s));
      BatchAgrees(env, known, rows, last, front, middle);
      UpsertAgrees(env, known, UpsertedAll(env.platform, rows, front).value, middle, t, next);
    }
  }

  lemma AlbumGainAgrees(env: Environment, known: set<Location>, rows: Rows, last: Identity -> Option<Track>,
      t: Identity, gain: real, next: Identity -> Option<Track>)
    requires Sound(env, known) && Agrees(env, known, rows, last) && Genuine(env, known, t)
    requires forall s :: next(s) == if s == t then WithGain(last(s), gain) else last(s)
    ensures Agrees(env, known, WithAlbumGain(rows, t, gain), next)
  {
    hide Sound, Genuine;
    var after := WithAlbumGain(rows, t, gain);
    forall s | Genuine(env, known, s) ensures Holds(env.platform, after, s, next(s)) {
      GenuineKeys(env, known, s, t);
    }
  }

  lemma WithGainTwice(t: Option<Track>, gain: real)
    ensures WithGain(WithGain(t, gain), gain) == WithGain(t, gain)
  {
  }

  lemma {:induction false} AlbumGainsAgree(env: Environment, known: set<Location>, rows: Rows,
      last: Identity -> Option<Track>, ss: seq<Identity>, gain: real, next: Identity -> Option<Track>)
    requires Sound(env, known) && Agrees(env, known, rows, last)
    requires forall s :: s in ss ==> Genuine(env, known, s)
    requires forall s :: next(s) == if s in ss then WithGain(last(s), gain) else last(s)
    ensures Agrees(env, known, WithAlbumGains(rows, ss, gain), next)
  {
    hide Sound, Genuine, Holds;
    if ss != [] {
      var front, t := ss[..|ss| - 1], ss[|ss| - 1];
      var middle := (s: Identity) => if s in front then WithGain(last(s), gain) else last(s);
      AlbumGainsAgree(env, known, rows, last, front, gain, middle);
      forall s ensures next(s) == if s == t then WithGain(middle(s), gain) else middle(s) {
        WithGainTwice(last(s), gain);
        assert s in ss <==> s in front || s == t;
      }
      AlbumGainAgrees(env, known, WithAlbumGains(rows, front, gain), middle, t, gain, next);
    }
  }

  lemma DeleteAgrees(env: Environment, known: set<Location>, rows: Rows, last: Identity -> Option<Track>, t: Identity,
    next: Identity -> Option<Track>)
    requires Sound(env, known) && Agrees(env, known, rows, last) && Genuine(env, known, t)
    requires forall s :: next(s) == if s == t then None else last(s)
    ensures Agrees(env, known, rows - {t.cacheId}, next)
  {
    hide Sound, Genuine;
    var after := rows - {t.cacheId};
    forall s | Genuine(env, known, s) ensures Holds(env.platform, after, s, next(s)) {
      GenuineKeys(env, known, s, t);
    }
  }

  ghost predicate Succeeds(platform: Platform, rows: Rows, c: Command)
    requires Acceptable(platform, c)
  {
    (c.Upsert? ==> Upserted(platform, rows, c.track).Ok?) && (c.Batch? ==> UpsertedAll(platform, rows, c.tracks).Ok?)
  }

  lemma StepAgrees(env: Environment, known: set<Location>, rows: Rows, last: Identity -> Option<Track>, c: Command,
    next: Identity -> Option<Track>)
    requires Sound(env, known) && Agrees(env, known, rows, last)
    requires Acceptable(env.platform, c) && Speaks(env, known, c)
    requires forall s :: next(s) == WrittenStep(last(s), c, s)
    ensures Succeeds(env.platform, rows, c)
    ensures Agrees(env, known, Step(env.platform, rows, c), next)
  {
    hide Sound, Genuine, Holds;
    if c.Upsert? {
      UpsertAgrees(env, known, rows, last, c.track, next);
    } else if c.Batch? {
      BatchAgrees(env, known, rows, last, c.tracks, next);
    } else if c.AlbumGain? {
      AlbumGainsAgree(env, known, rows, last, c.sources, c.gain, next);
    } else if c.Delete? {
      DeleteAgrees(env, known, rows, last, c.source, next);
    } else {
      assert forall s :: next(s) == last(s);
    }
  }

  /** A run of commands that speak of known locations. */
  ghost predicate Proper(env: Environment, known: set<Location>, cs: seq<Command>) {
    forall c :: c in cs ==> Acceptable(env.platform, c) && Speaks(env, known, c)
  }

  /** The table refines the last-written record: over every run no command fails and every row belongs to what
    * was last written.
    */
  lemma {:induction false} RunAgrees(env: Environment, known: set<Location>, cs: seq<Command>)
    requires Sound(env, known) && Proper(env, known, cs)
    ensures Agrees(env, known, After(env.platform, cs), (s: Identity) => Written(cs, s))
    ensures cs != [] ==> Succeeds(env.platform, After(env.platform, cs[..|cs| - 1]), cs[|cs| - 1])
  {
    hide Sound, Speaks, Genuine, Holds;
    var last := (s: Identity) => Written(cs, s);
    if cs == [] {
      EmptyAgrees(env, known, last);
    } else {
      var front, c := cs[..|cs| - 1], cs[|cs| - 1];
      var before := (s: Identity) => Written(front, s);
      RunAgrees(env, known, front);
      StepAgrees(env, known, After(env.platform, front), before, c, last);
    }
  }

  lemma EmptyAgrees(env: Environment, known: set<Location>, last: Identity -> Option<Track>)
    requires forall s :: last(s) == None
    ensures Agrees(env, known, map[], last)
  {
  }

  // ---------- what callers see ----------

  lemma LookedUp(env: Environment, known: set<Location>, rows: Rows, s: Identity, t: Option<Track>)
    requires Sound(env, known) && Genuine(env, known, s) && Holds(env.platform, rows, s, t)
    ensures Looked(env, rows, s) == Ok(t)
  {
    hide Sound, Genuine;
    if t.Some? {
      GenuineRow(env, known, t.value);
    }
  }

  /** After every run a look-up returns what was last written for the identity, and never an error. */
  lemma GetReturnsLastWritten(env: Environment, known: set<Location>, cs: seq<Command>, s: Identity)
    requires Sound(env, known) && Proper(env, known, cs) && Genuine(env, known, s)
    ensures Looked(env, After(env.platform, cs), s) == Ok(Written(cs, s))
  {
    RunAgrees(env, known, cs);
    hide Sound, Genuine, Holds, Proper;
    LookedUp(env, known, After(env.platform, cs), s, Written(cs, s));
  }

  /** When the identity is fresh: a record of this scanner for a local file that looks now as it did then. */
  ghost predicate Fresh(t: Option<Track>, s: Identity, file: Path -> Option<Stamp>) {
    && t.Some? && t.value.scanVersion == CURRENT_SCAN_VERSION
    && s.kind == Local && s.localPath.Some? && file(s.localPath.value) == Some(t.value.stamp)
  }

  lemma FreshUnlessScanned(env: Environment, known: set<Location>, cs: seq<Command>, s: Identity,
      file: Path -> Option<Stamp>)
    requires Sound(env, known) && Proper(env, known, cs) && Genuine(env, known, s)
    ensures NeedsScan(After(env.platform, cs), s, file) <==> !Fresh(Written(cs, s), s, file)
  {
    RunAgrees(env, known, cs);
    hide Sound, Genuine, Proper;
    assert Holds(env.platform, After(env.platform, cs), s, Written(cs, s));
  }

  /** After every run a fresh look-up returns what was last written exactly while that is fresh, so exactly while
    * no scan is needed, and never an error.
    */
  lemma GetFreshReturnsFresh(env: Environment, known: set<Location>, cs: seq<Command>, s: Identity,
      file: Path -> Option<Stamp>)
    requires Sound(env, known) && Proper(env, known, cs) && Genuine(env, known, s)
    ensures LookedFresh(env, After(env.platform, cs), s, file)
      == Ok(if Fresh(Written(cs, s), s, file) then Written(cs, s) else None)
    ensures LookedFresh(env, After(env.platform, cs), s, file) != Ok(None)
      <==> !NeedsScan(After(env.platform, cs), s, file)
  {
    GetReturnsLastWritten(env, known, cs, s);
    FreshUnlessScanned(env, known, cs, s, file);
  }

  /** Every row of every run has a valid key in its own namespace, meets the constraints, and decodes to the
    * identity of its key.
    */
  lemma RowsSound(env: Environment, known: set<Location>, cs: seq<Command>, id: string)
    requires Sound(env, known) && Proper(env, known, cs) && id in After(env.platform, cs)
    ensures var row := After(env.platform, cs)[id];
      && ((row.kind == "local" && row.locator.Some?) || (row.kind == "http" && row.locator.None?))
      && SourceOf(env, id, row).Ok? && Genuine(env, known, SourceOf(env, id, row).value)
      && ValidCacheId(SourceOf(env, id, row).value.kind, id)
      && row.kind == Namespace(SourceOf(env, id, row).value.kind)
  {
    RunAgrees(env, known, cs);
    hide Sound, Proper, ValidCacheId;
    var s :| Genuine(env, known, s) && s.cacheId == id;
    assert Holds(env.platform, After(env.platform, cs), s, Written(cs, s));
    hide Holds, Agrees, Written, After;
    GenuineRow(env, known, Written(cs, s).value);
    GenuineKeyValid(env, known, s);
  }

  lemma GenuineKeyValid(env: Environment, known: set<Location>, s: Identity)
    requires Sound(env, known) && Genuine(env, known, s)
    ensures ValidCacheId(s.kind, s.cacheId)
  {
    hide ValidCacheId, CacheId;
    var l :| l in known && Nameable(env.platform, l) && s == FromLocation(env, l);
    KeysAreNamespaced(env, s.kind, Payload(env.platform, l), s.kind);
  }

  /** After every run the listing succeeds, has as many entries as the statistics count, and every entry needs
    * a scan whatever the files look like.
    */
  lemma ListedNeedScan(env: Environment, known: set<Location>, cs: seq<Command>, listed: seq<Identity>,
      file: Path -> Option<Stamp>)
    requires Sound(env, known) && Proper(env, known, cs)
    ensures var rows := After(env.platform, cs);
      && (forall id :: id in rows && Outdated(rows[id]) ==> SourceOf(env, id, rows[id]).Ok?)
      && (Lists(env, rows, listed, rows.Keys) ==>
            |listed| == |OutdatedKeys(rows)| && forall i :: 0 <= i < |listed| ==> NeedsScan(rows, listed[i], file))
  {
    var rows := After(env.platform, cs);
    hide Sound, Proper, After;
    forall id | id in rows ensures SourceOf(env, id, rows[id]).Ok? {
      RowsSound(env, known, cs, id);
    }
    if Lists(env, rows, listed, rows.Keys) {
      ListingMatchesCount(env, rows, listed);
      forall i | 0 <= i < |listed| ensures NeedsScan(rows, listed[i], file) {
        RowsSound(env, known, cs, listed[i].cacheId);
      }
    }
  }

  /** After every run an identity is listed exactly when something was written for it that another scanner version
    * measured or that is remote.
    */
  lemma ListedExactly(env: Environment, known: set<Location>, cs: seq<Command>, listed: seq<Identity>, s: Identity)
    requires Sound(env, known) && Proper(env, known, cs) && Genuine(env, known, s)
    requires Lists(env, After(env.platform, cs), listed, After(env.platform, cs).Keys)
    ensures s in listed
      <==> Written(cs, s).Some? && (Written(cs, s).value.scanVersion != CURRENT_SCAN_VERSION || s.kind == Http)
  {
    var rows, t := After(env.platform, cs), Written(cs, s);
    RunAgrees(env, known, cs);
    hide Sound, Genuine, Proper, After, Written;
    assert Holds(env.platform, rows, s, t);
    if t.Some? {
      GenuineRow(env, known, t.value);
      OutdatedRow(env.platform, t.value);
      ListedByKey(env, rows, listed, s);
    } else {
      ListedAreStored(env, rows, listed, s);
    }
  }

  lemma ListedAreStored(env: Environment, rows: Rows, listed: seq<Identity>, s: Identity)
    requires Lists(env, rows, listed, rows.Keys)
    ensures s in listed ==> s.cacheId in rows
  {
  }

  lemma OutdatedRow(platform: Platform, t: Track)
    requires Storable(platform, t.source)
    ensures Outdated(RowOf(platform, t)) <==> t.scanVersion != CURRENT_SCAN_VERSION || t.source.kind == Http
  {
  }

  /** A listing holds an identity whose row decodes to it exactly when that row is outdated. */
  lemma ListedByKey(env: Environment, rows: Rows, listed: seq<Identity>, s: Identity)
    requires Lists(env, rows, listed, rows.Keys) && s.cacheId in rows
      && SourceOf(env, s.cacheId, rows[s.cacheId]) == Ok(s)
    ensures s in listed <==> Outdated(rows[s.cacheId])
  {
    hide SourceOf, Outdated;
    if Outdated(rows[s.cacheId]) {
      var k :| 0 <= k < |listed| && listed[k].cacheId == s.cacheId;
      assert listed[k] == s;
    }
  }

  /** So the listing is the stored identities that need a scan whatever the files look like. */
  lemma ListedNeverFresh(env: Environment, known: set<Location>, cs: seq<Command>, listed: seq<Identity>, s: Identity)
    requires Sound(env, known) && Proper(env, known, cs) && Genuine(env, known, s)
    requires Lists(env, After(env.platform, cs), listed, After(env.platform, cs).Keys)
    ensures s in listed
      <==> Written(cs, s).Some? && forall file: Path -> Option<Stamp> :: NeedsScan(After(env.platform, cs), s, file)
  {
    var rows, t := After(env.platform, cs), Written(cs, s);
    ListedExactly(env, known, cs, listed, s);
    hide Sound, Genuine, Proper, After, Written, NeedsScan, Lists;
    forall file: Path -> Option<Stamp>
      ensures NeedsScan(rows, s, file) <==> !Fresh(t, s, file)
    {
      FreshUnlessScanned(env, known, cs, s, file);
    }
    if t.Some? {
      GenuineKindPath(env, known, s);
      var asStored := (p: Path) => Some(t.value.stamp);
      assert NeedsScan(rows, s, asStored) <==> !Fresh(t, s, asStored);
    }
  }

  lemma GenuineKindPath(env: Environment, known: set<Location>, s: Identity)
    requires Genuine(env, known, s)
    ensures s.kind == Local <==> s.localPath.Some?
  {
  }

  function Singles(ts: seq<Track>): seq<Command> {
    seq(|ts|, i requires 0 <= i < |ts| => Upsert(ts[i]))
  }

  lemma AfterOneMore(platform: Platform, cs: seq<Command>, c: Command)
    requires forall d :: d in cs + [c] ==> Acceptable(platform, d)
    ensures After(platform, cs + [c]) == Step(platform, After(platform, cs), c)
  {
    assert (cs + [c])[..|cs|] == cs;
  }

  lemma SinglesAcceptable(platform: Platform, cs: seq<Command>, ts: seq<Track>)
    requires forall c :: c in cs ==> Acceptable(platform, c)
    requires forall t :: t in ts ==> Storable(platform, t.source)
    ensures forall c :: c in cs + Singles(ts) ==> Acceptable(platform, c)
    ensures forall c :: c in cs + [Batch(ts)] ==> Acceptable(platform, c)
    ensures Acceptable(platform, Batch(ts)) && forall t :: t in ts ==> Acceptable(platform, Upsert(t))
  {
    assert forall i :: 0 <= i < |Singles(ts)| ==> Acceptable(platform, Singles(ts)[i]);
  }

  lemma SinglesEnd(cs: seq<Command>, ts: seq<Track>)
    requires ts != []
    ensures cs + Singles(ts) == (cs + Singles(ts[..|ts| - 1])) + [Upsert(ts[|ts| - 1])]
  {
  }

  /** The last record of a successful batch is one more upsert. */
  lemma BatchEndsWithUpsert(platform: Platform, rows: Rows, ts: seq<Track>)
    requires ts != [] && forall t :: t in ts ==> Storable(platform, t.source)
    requires UpsertedAll(platform, rows, ts).Ok?
    ensures UpsertedAll(platform, rows, ts[..|ts| - 1]).Ok?
    ensures Step(platform, rows, Batch(ts))
      == Step(platform, Step(platform, rows, Batch(ts[..|ts| - 1])), Upsert(ts[|ts| - 1]))
  {
    hide Upserted, Storable;
  }

  /** A batch that succeeds leaves the rows that upserting its records one by one leaves. */
  lemma {:induction false} BatchIsUpserts(platform: Platform, cs: seq<Command>, ts: seq<Track>)
    requires forall c :: c in cs ==> Acceptable(platform, c)
    requires forall t :: t in ts ==> Storable(platform, t.source)
    requires UpsertedAll(platform, After(platform, cs), ts).Ok?
    ensures forall c :: c in cs + Singles(ts) ==> Acceptable(platform, c)
    ensures Acceptable(platform, Batch(ts))
    ensures After(platform, cs + [Batch(ts)]) == After(platform, cs + Singles(ts))
  {
    hide Storable, Acceptable;
    SinglesAcceptable(platform, cs, ts);
    AfterOneMore(platform, cs, Batch(ts));
    if ts == [] {
      assert cs + Singles(ts) == cs;
    } else {
      var front, t := ts[..|ts| - 1], ts[|ts| - 1];
      BatchEndsWithUpsert(platform, After(platform, cs), ts);
      hide After, Step, UpsertedAll, Singles;
      SinglesAcceptable(platform, cs, front);
      BatchIsUpserts(platform, cs, front);
      AfterOneMore(platform, cs, Batch(front));
      SinglesEnd(cs, ts);
      AfterOneMore(platform, cs + Singles(front), Upsert(t));
    }
  }

  // ---------- reading a record and writing it back ----------

  /** What writing a record back does to the row it was read from. */
  ghost function WrittenBack(env: Environment, rows: Rows, t: Track): Rows
    requires Storable(env.platform, t.source)
  {
    rows[t.source.cacheId := RowOf(env.platform, t)]
  }

  /** The digest tells the locator a row was read with from the locator it would be written with. */
  ghost predicate SameDigest(env: Environment, row: Row, s: Identity)
    requires Storable(env.platform, s) && s.localPath.Some? && row.locator.Some?
  {
    env.digest(Preimage(Local, row.locator.value))
      == env.digest(Preimage(Local, EncodedPath(env.platform, s.localPath.value)))
  }

  lemma ReadParts(env: Environment, rows: Rows, s: Identity, t: Track)
    requires Looked(env, rows, s) == Ok(Some(t))
    ensures s.cacheId in rows && t.source == s
    ensures var row := rows[s.cacheId];
      && (s.kind == Local <==> row.kind == LOCAL_SOURCE_KIND) && (s.kind == Http <==> row.kind == HTTP_SOURCE_KIND)
      && (s.kind == Local <==> s.localPath.Some?) && (s.kind == Local <==> row.locator.Some?)
      && (s.kind == Local ==> s.cacheId == CacheId(env, Local, row.locator.value))
      && (s.kind == Local ==> s.display == env.lossy(s.localPath.value))
      && (s.kind == Http ==> ValidCacheId(Http, s.cacheId) && env.isOrigin(s.display))
  {
    hide CacheId, ValidCacheId;
  }

  lemma WrittenBackLocal(env: Environment, s: Identity)
    requires s.kind == Local && s.localPath.Some? && Storable(env.platform, s)
      && s.display == env.lossy(s.localPath.value)
    ensures var own := EncodedPath(env.platform, s.localPath.value);
      FromPersisted(env, s.cacheId, LOCAL_SOURCE_KIND, Some(own), s.display)
      == if s.cacheId == CacheId(env, Local, own) then Ok(s) else Err(CacheIdMismatch)
  {
    hide CacheId;
    var own := EncodedPath(env.platform, s.localPath.value);
    assert own[0] == NativeMarker(env.platform);
    PathRoundTrip(env, own, s.localPath.value);
  }

  /** Writing back what was read never violates a constraint, and keeps the row readable exactly when the
    * source is remote or the digests of both locators agree; otherwise the row no longer decodes.
    */
  lemma WriteBackReadable(env: Environment, rows: Rows, s: Identity, t: Track)
    requires Looked(env, rows, s) == Ok(Some(t)) && Storable(env.platform, s)
    ensures t.source == s && s.cacheId in rows && Upserted(env.platform, rows, t) == Ok(WrittenBack(env, rows, t))
    ensures s.kind == Http ==> Looked(env, WrittenBack(env, rows, t), s) == Ok(Some(t))
    ensures s.kind == Local ==> s.localPath.Some? && rows[s.cacheId].locator.Some?
    ensures s.kind == Local && SameDigest(env, rows[s.cacheId], s) ==>
      Looked(env, WrittenBack(env, rows, t), s) == Ok(Some(t))
    ensures s.kind == Local && !SameDigest(env, rows[s.cacheId], s) ==>
      && Looked(env, WrittenBack(env, rows, t), s) == Err(Conversion(CacheIdMismatch))
      && SourceOf(env, s.cacheId, WrittenBack(env, rows, t)[s.cacheId]).Err?
  {
    hide CacheId, Preimage, ValidCacheId;
    ReadParts(env, rows, s, t);
    if s.kind == Local {
      var encoded, own := rows[s.cacheId].locator.value, EncodedPath(env.platform, s.localPath.value);
      WrittenBackLocal(env, s);
      SameDigestSameKey(env, encoded, own);
      if s.cacheId == CacheId(env, Local, own) {
        KeyDetermines(env, Local, encoded, Local, own);
      }
    }
  }

  /** The row of the concrete text row, under the key it was stored with. */
  function TextRows(m: Measured): Rows {
    var env := PlainEnvironment();
    map[CacheId(env, Local, TEXT_ROW) :=
      Row(LOCAL_SOURCE_KIND, Some(TEXT_ROW), "", m, None, CURRENT_SCAN_VERSION, 0, Stamp(None, None))]
  }

  /** A concrete table whose only row reads back, until the record just read is written back. */
  lemma WriteBackExample(m: Measured) returns (s: Identity, t: Track)
    ensures var env := PlainEnvironment();
      && WellBehaved(env) && Storable(env.platform, s) && t.source == s && Looked(env, TextRows(m), s) == Ok(Some(t))
      && Looked(env, WrittenBack(env, TextRows(m), t), s) == Err(Conversion(CacheIdMismatch))
  {
    var env := PlainEnvironment();
    hide CacheId, Preimage;
    TextRowExample();
    var id := CacheId(env, Local, TEXT_ROW);
    s := Identity(Local, id, Some([]), "");
    t := Track(s, m, None, CURRENT_SCAN_VERSION, 0, Stamp(None, None));
    assert Looked(env, TextRows(m), s) == Ok(Some(t));
    WriteBackReadable(env, TextRows(m), s, t);
  }
}
