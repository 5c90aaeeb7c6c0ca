/** The loudness cache: rows keyed by identity text, schema reset, freshness, and listing. */
module LoudnessStore {
  import opened Octets
  import opened Outcomes
  import opened LoudnessIdentity

  const CURRENT_SCAN_VERSION := 1
  const SCHEMA_VERSION := 2

  const REQUIRED_COLUMNS := {
    "track_id", "source_kind", "source_locator", "source_label", "integrated_lufs", "true_peak_dbtp", "loudness_range",
    "track_gain_db", "album_gain_db", "scan_version", "scanned_at", "file_mtime", "file_size"
  }

  datatype Measured = Measured(integratedLufs: real, truePeakDbtp: real, loudnessRange: Option<real>, trackGainDb: real)

  datatype Stamp = Stamp(mtime: Option<int>, size: Option<int>)

  datatype Track = Track(source: Identity, measured: Measured, albumGainDb: Option<real>, scanVersion: int,
    scannedAt: int, stamp: Stamp)

  /** The columns of a row other than its key. */
  datatype Row = Row(kind: string, locator: Option<Bytes>, display: string, measured: Measured,
    albumGainDb: Option<real>,
    scanVersion: int, scannedAt: int, stamp: Stamp)

  type Rows = map<string, Row>

  datatype DatabaseError = ConstraintFailed | Conversion(error: PersistedSourceError)

  datatype Stats = Stats(total: nat, outdated: nat, withAlbumGain: nat, scanVersion: int)

  // ---------- rows ----------

  /** The table's CHECK constraints. */
  predicate Checked(row: Row) {
    (row.kind == LOCAL_SOURCE_KIND && row.locator.Some?) || (row.kind == HTTP_SOURCE_KIND && row.locator.None?)
  }

  predicate Storable(platform: Platform, s: Identity) {
    s.localPath.Some? ==> NativePath(platform, s.localPath.value)
  }

  function RowOf(platform: Platform, t: Track): Row
    requires Storable(platform, t.source)
  {
    Row(PersistedKind(t.source), PersistedLocator(platform, t.source), t.source.display, t.measured, t.albumGainDb,
      t.scanVersion, t.scannedAt, t.stamp)
  }

  function SourceOf(env: Environment, id: string, row: Row): Result<Identity, PersistedSourceError> {
    FromPersisted(env, id, row.kind, row.locator, row.display)
  }

  function TrackOf(env: Environment, id: string, row: Row): Result<Track, PersistedSourceError> {
    var source := SourceOf(env, id, row);
    if source.Err? then Err(source.error)
    else Ok(Track(source.value, row.measured, row.albumGainDb, row.scanVersion, row.scannedAt, row.stamp))
  }

  /** One INSERT ... ON CONFLICT DO UPDATE. */
  function Upserted(platform: Platform, rows: Rows, t: Track): Result<Rows, DatabaseError>
    requires Storable(platform, t.source)
  {
    var row := RowOf(platform, t);
    if Checked(row) then Ok(rows[t.source.cacheId := row]) else Err(ConstraintFailed)
  }

  /** A record is refused exactly when its source is local without a path or remote with one; otherwise its row alone
    * is written.
    */
  lemma UpsertedExactly(platform: Platform, rows: Rows, t: Track)
    requires Storable(platform, t.source)
    ensures Upserted(platform, rows, t).Ok? <==> (t.source.kind == Local <==> t.source.localPath.Some?)
    ensures var after := Upserted(platform, rows, t); after.Ok? ==>
      && after.value.Keys == rows.Keys + {t.source.cacheId}
      && after.value - {t.source.cacheId} == rows - {t.source.cacheId}
  {
  }

  ghost function UpsertedAll(platform: Platform, rows: Rows, ts: seq<Track>): Result<Rows, DatabaseError>
    requires forall t :: t in ts ==> Storable(platform, t.source)
  {
    if ts == [] then Ok(rows)
    else
      var before := UpsertedAll(platform, rows, ts[..|ts| - 1]);
      if before.Err? then before else Upserted(platform, before.value, ts[|ts| - 1])
  }

  function WithAlbumGain(rows: Rows, s: Identity, gain: real): Rows {
    if s.cacheId in rows then rows[s.cacheId := rows[s.cacheId].(albumGainDb := Some(gain))] else rows
  }

  ghost function WithAlbumGains(rows: Rows, ss: seq<Identity>, gain: real): Rows {
    if ss == [] then rows else WithAlbumGain(WithAlbumGains(rows, ss[..|ss| - 1], gain), ss[|ss| - 1], gain)
  }

  function Looked(env: Environment, rows: Rows, s: Identity): Result<Option<Track>, DatabaseError> {
    if s.cacheId !in rows then Ok(None)
    else
      var t := TrackOf(env, s.cacheId, rows[s.cacheId]);
      if t.Err? then Err(Conversion(t.error))
      else if t.value.source != s then Err(Conversion(RequestedIdentityMismatch))
      else Ok(Some(t.value))
  }

  /** Stale without looking at any file. */
  predicate Outdated(row: Row) {
    row.scanVersion != CURRENT_SCAN_VERSION || row.kind == HTTP_SOURCE_KIND
  }

  /** Whether a source needs scanning, given what its file looks like now, if it can be read. */
  predicate NeedsScan(rows: Rows, s: Identity, file: Path -> Option<Stamp>) {
    || s.cacheId !in rows
    || rows[s.cacheId].kind != PersistedKind(s)
    || rows[s.cacheId].scanVersion != CURRENT_SCAN_VERSION
    || s.kind == Http
    || s.localPath.None?
    || file(s.localPath.value) != Some(rows[s.cacheId].stamp)
  }

  /** No scan is needed exactly while this scanner's row of a local source bears the stamp that its file has now. */
  lemma ScanExactly(rows: Rows, s: Identity, file: Path -> Option<Stamp>)
    ensures !NeedsScan(rows, s, file) <==>
      exists row, path, stamp :: s.cacheId in rows && rows[s.cacheId] == row && s.localPath == Some(path)
        && file(path) == Some(stamp) && s.kind == Local && row.kind == "local" && row.scanVersion == 1
        && row.stamp == stamp
  {
    if !NeedsScan(rows, s, file) {
      var row := rows[s.cacheId];
      assert file(s.localPath.value) == Some(row.stamp) && row.kind == "local";
    }
  }

  /** A record only while no scan is needed. */
  function LookedFresh(env: Environment, rows: Rows, s: Identity, file: Path -> Option<Stamp>):
    Result<Option<Track>, DatabaseError>
  {
    if NeedsScan(rows, s, file) then Ok(None) else Looked(env, rows, s)
  }

  // ---------- the database ----------

  /** A database file: the version it declares, and the table if there is one. */
  class LoudnessDatabase {
    const env: Environment
    var userVersion: int
    var present: bool
    var columns: set<string>
    var rows: Rows

    constructor (env: Environment, userVersion: int, present: bool, columns: set<string>, rows: Rows)
      ensures this.env == env && this.userVersion == userVersion
      ensures this.present == present && this.columns == columns && this.rows == rows
    {
      this.env := env;
      this.userVersion := userVersion;
      this.present := present;
      this.columns := columns;
      this.rows := rows;
    }

    predicate Current()
      reads this
    {
      present && userVersion == SCHEMA_VERSION && REQUIRED_COLUMNS <= columns
    }

    /** Keep a table of the current schema; drop any other and start empty. */
    method InitSchema()
      modifies this
      ensures Current()
      ensures rows == if old(Current()) then old(rows) else map[]
      ensures old(Current()) ==> columns == old(columns)
    {
      if present {
        var matches := userVersion == SCHEMA_VERSION && REQUIRED_COLUMNS <= columns;
        if !matches {
          present, columns, rows := false, {}, map[];
        }
      }
      if !present {
        present, columns, rows := true, REQUIRED_COLUMNS, map[];
      }
      userVersion := SCHEMA_VERSION;
    }

    method Upsert(t: Track) returns (r: Result<(), DatabaseError>)
      requires Current() && Storable(env.platform, t.source)
      modifies this`rows
      ensures var after := Upserted(env.platform, old(rows), t);
        && r == (if after.Ok? then Ok(()) else Err(after.error))
        && rows == if after.Ok? then after.value else old(rows)
    {
      var after := Upserted(env.platform, rows, t);
      if after.Err? {
        return Err(after.error);
      }
      rows := after.value;
      return Ok(());
    }

    /** All records or none. */
    method BatchUpsert(ts: seq<Track>) returns (r: Result<nat, DatabaseError>)
      requires Current() && forall t :: t in ts ==> Storable(env.platform, t.source)
      modifies this`rows
      ensures var after := UpsertedAll(env.platform, old(rows), ts);
        && r == (if after.Ok? then Ok(|ts|) else Err(after.error))
        && rows == if after.Ok? then after.value else old(rows)
    {
      var count := 0;
      var transaction := rows;
      while count < |ts|
        invariant count <= |ts| && rows == old(rows)
        invariant UpsertedAll(env.platform, rows, ts[..count]) == Ok(transaction)
      {
        assert ts[..count + 1][..count] == ts[..count];
        var after := Upserted(env.platform, transaction, ts[count]);
        if after.Err? {
          FirstFailure(env.platform, rows, ts, count + 1);
          return Err(after.error);
        }
        transaction := after.value;
        count := count + 1;
      }
      assert ts[..count] == ts;
      rows := transaction;
      return Ok(count);
    }

    method SetAlbumGain(ss: seq<Identity>, gain: real)
      requires Current()
      modifies this`rows
      ensures rows == WithAlbumGains(old(rows), ss, gain)
    {
      for i := 0 to |ss|
        invariant rows == WithAlbumGains(old(rows), ss[..i], gain)
      {
        assert ss[..i + 1][..i] == ss[..i];
        rows := WithAlbumGain(rows, ss[i], gain);
      }
      assert ss[..|ss|] == ss;
    }

    method Delete(s: Identity) returns (affected: bool)
      requires Current()
      modifies this`rows
      ensures affected == (s.cacheId in old(rows)) && rows == old(rows) - {s.cacheId}
    {
      affected := s.cacheId in rows;
      rows := rows - {s.cacheId};
    }

    method Get(s: Identity) returns (r: Result<Option<Track>, DatabaseError>)
      requires Current()
      ensures r == Looked(env, rows, s)
    {
      r := Looked(env, rows, s);
    }

    method GetFresh(s: Identity, file: Path -> Option<Stamp>) returns (r: Result<Option<Track>, DatabaseError>)
      requires Current()
      ensures r == LookedFresh(env, rows, s, file)
    {
      if NeedsScan(rows, s, file) {
        return Ok(None);
      }
      r := Get(s);
    }

    /** Every outdated identity once, in an order the table does not fix; one row that does not decode fails
      * the call.
      */
    method GetOutdatedTracks() returns (r: Result<seq<Identity>, DatabaseError>)
      requires Current()
      ensures r.Ok? <==> forall id :: id in rows && Outdated(rows[id]) ==> SourceOf(env, id, rows[id]).Ok?
      ensures r.Ok? ==> Lists(env, rows, r.value, rows.Keys)
    {
      var listed: seq<Identity> := [];
      var remaining := rows.Keys;
      while remaining != {}
        invariant remaining <= rows.Keys
        invariant Lists(env, rows, listed, rows.Keys - remaining)
        invariant forall id :: id in rows && id !in remaining && Outdated(rows[id]) ==> SourceOf(env, id, rows[id]).Ok?
        decreases |remaining|
      {
        var id :| id in remaining;
        if Outdated(rows[id]) {
          var source := SourceOf(env, id, rows[id]);
          if source.Err? {
            return Err(Conversion(source.error));
          }
          ListAdds(env, rows, listed, rows.Keys - remaining, id);
          listed := listed + [source.value];
        }
        assert rows.Keys - (remaining - {id}) == (rows.Keys - remaining) + {id};
        remaining := remaining - {id};
      }
      return Ok(listed);
    }

    method GetStats() returns (stats: Stats)
      requires Current()
      ensures stats.total == |rows| && stats.scanVersion == CURRENT_SCAN_VERSION
      ensures stats.outdated == |OutdatedKeys(rows)|
      ensures stats.withAlbumGain == |set id | id in rows && rows[id].albumGainDb.Some?|
    {
      var outdated := set id | id in rows && Outdated(rows[id]);
      var withGain := set id | id in rows && rows[id].albumGainDb.Some?;
      stats := Stats(|rows|, |outdated|, |withGain|, CURRENT_SCAN_VERSION);
    }
  }

  function OutdatedKeys(rows: Rows): set<string> {
    set id | id in rows && Outdated(rows[id])
  }

  /** The list holds the outdated identities among the keys seen, each once. */
  ghost predicate Lists(env: Environment, rows: Rows, listed: seq<Identity>, seen: set<string>) {
    && (forall i :: 0 <= i < |listed| ==>
          var id := listed[i].cacheId;
          id in seen && id in rows && Outdated(rows[id]) && SourceOf(env, id, rows[id]) == Ok(listed[i]))
    && (forall i, j :: 0 <= i < j < |listed| ==> listed[i].cacheId != listed[j].cacheId)
    && (forall id :: id in seen && id in rows && Outdated(rows[id]) ==>
      exists i :: 0 <= i < |listed| && listed[i].cacheId == id)
  }

  lemma ListAdds(env: Environment, rows: Rows, listed: seq<Identity>, seen: set<string>, id: string)
    requires Lists(env, rows, listed, seen) && id in rows && id !in seen && Outdated(rows[id])
    requires SourceOf(env, id, rows[id]).Ok?
    ensures Lists(env, rows, listed + [SourceOf(env, id, rows[id]).value], seen + {id})
  {
    SourceKeepsKey(env, id, rows[id]);
    var more := listed + [SourceOf(env, id, rows[id]).value];
    assert more[|listed|].cacheId == id;
    forall other | other in seen + {id} && other in rows && Outdated(rows[other])
      ensures exists i :: 0 <= i < |more| && more[i].cacheId == other
    {
      if other != id {
        var i :| 0 <= i < |listed| && listed[i].cacheId == other;
        assert more[i].cacheId == other;
      }
    }
  }

  /** The listing is as long as the count of outdated rows. */
  lemma ListingMatchesCount(env: Environment, rows: Rows, listed: seq<Identity>)
    requires Lists(env, rows, listed, rows.Keys)
    ensures |listed| == |OutdatedKeys(rows)|
  {
    var keys := seq(|listed|, i requires 0 <= i < |listed| => listed[i].cacheId);
    DistinctSize(keys);
    assert (set k | k in keys) == OutdatedKeys(rows) by {
      forall id | id in OutdatedKeys(rows) ensures id in keys {
        var i :| 0 <= i < |listed| && listed[i].cacheId == id;
        assert keys[i] == id;
      }
    }
  }

  lemma {:induction false} DistinctSize(keys: seq<string>)
    requires forall i, j :: 0 <= i < j < |keys| ==> keys[i] != keys[j]
    ensures |set k | k in keys| == |keys|
  {
    if keys != [] {
      var front, last := keys[..|keys| - 1], keys[|keys| - 1];
      DistinctSize(front);
      assert (set k | k in keys) == (set k | k in front) + {last};
    }
  }

  lemma SourceKeepsKey(env: Environment, id: string, row: Row)
    requires SourceOf(env, id, row).Ok?
    ensures SourceOf(env, id, row).value.cacheId == id
  {
  }

  /** A failing record fails every batch that begins with the same records. */
  lemma {:induction false} FirstFailure(platform: Platform, rows: Rows, ts: seq<Track>, n: nat)
    requires forall t :: t in ts ==> Storable(platform, t.source)
    requires n <= |ts| && UpsertedAll(platform, rows, ts[..n]).Err?
    ensures UpsertedAll(platform, rows, ts) == UpsertedAll(platform, rows, ts[..n])
    decreases |ts| - n
  {
    if n < |ts| {
      assert ts[..n + 1][..n] == ts[..n];
      FirstFailure(platform, rows, ts, n + 1);
    } else {
      assert ts[..n] == ts;
    }
  }
}
