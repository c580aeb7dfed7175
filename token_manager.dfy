/** The token store manager (`TokenManager`): the Firestore collection of Bling
    tokens, the local fallback files, and the rules that create, select and
    refresh the active token. */
module TokenStore {
  import opened Documents
  import opened Text

  /** Access-token lifetime, in seconds, assumed when a record has no `expires_in`. */
  const DefaultExpiresIn := 3600
  /** Safety margin before access-token expiry: 10 minutes. */
  const RefreshMargin := 600

  /** One document of the token collection; `id` is the id the store assigned. */
  datatype TokenRecord = TokenRecord(id: nat, data: Doc)

  /** Matched by the query `where('active', '==', True)`. */
  predicate Active(r: TokenRecord) {
    IsTrue(r.data, "active")
  }

  /** The `created_at` timestamp, when the field holds one. */
  function CreatedAt(d: Doc): Option<int> {
    if "created_at" in d && d["created_at"].VTime? then Some(d["created_at"].seconds) else None
  }

  /** Returned by the active-token query, which orders by `created_at`. */
  predicate Listed(r: TokenRecord) {
    Active(r) && CreatedAt(r.data).Some?
  }

  predicate UniqueIds(rs: seq<TokenRecord>) {
    forall i, j :: 0 <= i < j < |rs| ==> rs[i].id != rs[j].id
  }

  predicate IdsBelow(rs: seq<TokenRecord>, n: nat) {
    forall i :: 0 <= i < |rs| ==> rs[i].id < n
  }

  /** Every record carries its creation timestamp. */
  predicate Stamped(rs: seq<TokenRecord>) {
    forall i :: 0 <= i < |rs| ==> CreatedAt(rs[i].data).Some?
  }

  ghost predicate AtMostOneActive(rs: seq<TokenRecord>) {
    forall i, j :: 0 <= i < |rs| && 0 <= j < |rs| && Active(rs[i]) && Active(rs[j]) ==> i == j
  }

  // ---------------------------------------------------------------------------
  // Documents written by the two insert paths

  /** What `create_token_document` stores: every key of the token data, with
      `created_at`, `last_used` and `active` set over same-named keys. */
  function NewTokenDoc(tokenData: Doc, now: int): (d: Doc)
    ensures d.Keys == tokenData.Keys + {"created_at", "last_used", "active"}
    ensures forall k :: k in tokenData && k != "created_at" && k != "last_used" && k != "active" ==> d[k] == tokenData[k]
    ensures d["created_at"] == VTime(now) && d["last_used"] == VTime(now) && IsTrue(d, "active")
  {
    tokenData + map["created_at" := VTime(now), "last_used" := VTime(now), "active" := VBool(true)]
  }

  /** What `update_token` stores: a copy of the token data with `created_at`,
      `is_active`, `last_used` and `refreshed_from` set. It flags `is_active`,
      so the record is active for the store's query only if the caller's data
      already said `active: True`. */
  function RefreshedTokenDoc(tokenData: Doc, now: int, refreshedFrom: Value): (d: Doc)
    ensures d.Keys == tokenData.Keys + {"created_at", "is_active", "last_used", "refreshed_from"}
    ensures forall k :: k in tokenData && k != "created_at" && k != "is_active" && k != "last_used" && k != "refreshed_from" ==> d[k] == tokenData[k]
    ensures IsTrue(d, "is_active") && CreatedAt(d) == Some(now)
    ensures IsTrue(d, "active") <==> IsTrue(tokenData, "active")
  {
    tokenData + map["created_at" := VTime(now), "is_active" := VBool(true), "last_used" := VTime(now), "refreshed_from" := refreshedFrom]
  }

  // ---------------------------------------------------------------------------
  // Deactivation

  /** The record after an `{'active': False}` update. */
  function Deactivated(r: TokenRecord): TokenRecord {
    TokenRecord(r.id, r.data["active" := VBool(false)])
  }

  /** The collection once every active record has been switched off. */
  function DeactivateAll(rs: seq<TokenRecord>): seq<TokenRecord> {
    seq(|rs|, i requires 0 <= i < |rs| => if Active(rs[i]) then Deactivated(rs[i]) else rs[i])
  }

  /** Ids of the active records in collection order: the updates the
      deactivation loop queues in its batch. */
  function ActiveIds(rs: seq<TokenRecord>): seq<nat> {
    if rs == [] then []
    else ActiveIds(rs[..|rs| - 1]) + (if Active(rs[|rs| - 1]) then [rs[|rs| - 1].id] else [])
  }

  /** Committing a batch of `{'active': False}` updates addressed by document id. */
  function ApplyBatch(rs: seq<TokenRecord>, ids: seq<nat>): seq<TokenRecord> {
    seq(|rs|, i requires 0 <= i < |rs| => if rs[i].id in ids then Deactivated(rs[i]) else rs[i])
  }

  /** Deactivation switches `active` off on the active records and on no other
      record, and changes no other field. */
  lemma DeactivateAllEffect(rs: seq<TokenRecord>)
    ensures |DeactivateAll(rs)| == |rs|
    ensures forall i :: 0 <= i < |rs| ==> !Active(DeactivateAll(rs)[i]) && DeactivateAll(rs)[i].id == rs[i].id
    ensures forall i :: 0 <= i < |rs| && !Active(rs[i]) ==> DeactivateAll(rs)[i] == rs[i]
    ensures forall i :: 0 <= i < |rs| && Active(rs[i]) ==> DeactivateAll(rs)[i].data == rs[i].data["active" := VBool(false)]
  {
  }

  lemma {:induction false} ActiveIdsMembers(rs: seq<TokenRecord>, x: nat)
    ensures x in ActiveIds(rs) <==> exists i :: 0 <= i < |rs| && rs[i].id == x && Active(rs[i])
  {
    if rs != [] {
      var init := rs[..|rs| - 1];
      ActiveIdsMembers(init, x);
      if x in ActiveIds(init) {
        var i :| 0 <= i < |init| && init[i].id == x && Active(init[i]);
        assert rs[i] == init[i];
      }
      if exists i :: 0 <= i < |rs| && rs[i].id == x && Active(rs[i]) {
        var i :| 0 <= i < |rs| && rs[i].id == x && Active(rs[i]);
        if i < |init| {
          assert init[i] == rs[i];
        }
      }
    }
  }

  /** With document ids unique, the batch the loop queues deactivates exactly
      the active records. */
  lemma BatchDeactivatesExactlyActive(rs: seq<TokenRecord>)
    requires UniqueIds(rs)
    ensures ApplyBatch(rs, ActiveIds(rs)) == DeactivateAll(rs)
  {
    forall i | 0 <= i < |rs|
      ensures (rs[i].id in ActiveIds(rs)) == Active(rs[i])
    {
      ActiveIdsMembers(rs, rs[i].id);
    }
  }

  // ---------------------------------------------------------------------------
  // Inserting

  /** The collection after an insert path ran: the deactivation batch (when it
      committed) followed by the added record (when the add succeeded). */
  function AfterInsert(rs: seq<TokenRecord>, deactivateOk: bool, added: seq<TokenRecord>): seq<TokenRecord> {
    (if deactivateOk then DeactivateAll(rs) else rs) + added
  }

  /** When deactivation commits, a successful `create_token_document` leaves
      exactly one active record, the new one, and the active-token query
      returns it. */
  lemma CreateLeavesSingleActive(rs: seq<TokenRecord>, id: nat, tokenData: Doc, now: int)
    ensures var after := AfterInsert(rs, true, [TokenRecord(id, NewTokenDoc(tokenData, now))]);
            (forall i :: 0 <= i < |after| ==> (Active(after[i]) <==> i == |rs|))
            && NewestActive(after) == Some(|rs|)
  {
    var after := AfterInsert(rs, true, [TokenRecord(id, NewTokenDoc(tokenData, now))]);
    DeactivateAllEffect(rs);
    assert forall i :: 0 <= i < |rs| ==> after[i] == DeactivateAll(rs)[i];
    assert Listed(after[|rs|]);
  }

  /** At most one active record is preserved by `create_token_document`
      whenever deactivation commits, or there was no active record to switch
      off. */
  lemma CreateKeepsAtMostOneActive(rs: seq<TokenRecord>, deactivateOk: bool, addOk: bool, id: nat, tokenData: Doc, now: int)
    requires AtMostOneActive(rs)
    requires deactivateOk || forall i :: 0 <= i < |rs| ==> !Active(rs[i])
    ensures AtMostOneActive(AfterInsert(rs, deactivateOk, if addOk then [TokenRecord(id, NewTokenDoc(tokenData, now))] else []))
  {
    var base := if deactivateOk then DeactivateAll(rs) else rs;
    DeactivateAllEffect(rs);
    assert forall i :: 0 <= i < |base| ==> !Active(base[i]);
    var after := AfterInsert(rs, deactivateOk, if addOk then [TokenRecord(id, NewTokenDoc(tokenData, now))] else []);
    assert forall i :: 0 <= i < |base| ==> after[i] == base[i];
  }

  /** When the deactivation batch fails and the add succeeds, the old active
      record stays active beside the new one. */
  lemma FailedDeactivationKeepsOldActive(rs: seq<TokenRecord>, id: nat, tokenData: Doc, now: int, k: nat)
    requires k < |rs| && Active(rs[k])
    ensures var after := AfterInsert(rs, false, [TokenRecord(id, NewTokenDoc(tokenData, now))]);
            Active(after[k]) && Active(after[|rs|]) && !AtMostOneActive(after)
  {
    var after := AfterInsert(rs, false, [TokenRecord(id, NewTokenDoc(tokenData, now))]);
    assert after[k] == rs[k];
    assert Active(after[|rs|]);
  }

  /** After `update_token`, no record is returned by the active-token query,
      unless the caller's data itself carried `active: True`. */
  lemma UpdateTokenHidesRecord(rs: seq<TokenRecord>, id: nat, tokenData: Doc, now: int, refreshedFrom: Value)
    requires !IsTrue(tokenData, "active")
    ensures var after := AfterInsert(rs, true, [TokenRecord(id, RefreshedTokenDoc(tokenData, now, refreshedFrom))]);
            (forall i :: 0 <= i < |after| ==> !Active(after[i])) && NewestActive(after) == None
  {
    var after := AfterInsert(rs, true, [TokenRecord(id, RefreshedTokenDoc(tokenData, now, refreshedFrom))]);
    DeactivateAllEffect(rs);
    assert forall i :: 0 <= i < |rs| ==> after[i] == DeactivateAll(rs)[i];
    assert !Active(after[|rs|]);
  }

  // ---------------------------------------------------------------------------
  // Selecting the active token

  function Created(r: TokenRecord): int
    requires Listed(r)
  {
    CreatedAt(r.data).value
  }

  /** The query `where('active', '==', True).order_by('created_at',
      DESCENDING).limit(1)`: the position of an active record with the
      greatest `created_at`, or None when no record is active. */
  function NewestActive(rs: seq<TokenRecord>): (k: Option<nat>)
    ensures k.None? <==> forall i :: 0 <= i < |rs| ==> !Listed(rs[i])
    ensures k.Some? ==> k.value < |rs| && Listed(rs[k.value])
    ensures k.Some? ==> forall i :: 0 <= i < |rs| && Listed(rs[i]) ==> Created(rs[i]) <= Created(rs[k.value])
  {
    if rs == [] then None
    else
      var k := NewestActive(rs[..|rs| - 1]);
      var last := |rs| - 1;
      assert forall i :: 0 <= i < last ==> rs[..last][i] == rs[i];
      if Listed(rs[last]) && (k.None? || Created(rs[k.value]) < Created(rs[last])) then Some(last) else k
  }

  /** The record after `last_used` is set to the server time. */
  function Touched(r: TokenRecord, now: int): TokenRecord {
    TokenRecord(r.id, r.data["last_used" := VTime(now)])
  }

  /** The seconds of `expires_in`: 3600 when the key is absent; a bool counts as
      0 or 1, as Python's `bool` is an `int`; None when `timedelta` rejects it. */
  function ExpiresIn(d: Doc): Option<int> {
    if "expires_in" !in d then Some(DefaultExpiresIn)
    else match d["expires_in"]
      case VInt(n) => Some(n)
      case VBool(b) => Some(if b then 1 else 0)
      case _ => None
  }

  /** The refresh rule as its comments describe it: refresh when `created_at`
      is missing or falsy, when the computation fails, or once the current time
      reaches expiry minus the 10-minute margin. */
  function ShouldRefresh(d: Doc, now: int): bool {
    var c := Get(d, "created_at");
    if !Truthy(c) then true
    else match (c, ExpiresIn(d))
      case (VTime(t), Some(e)) => now >= t + e - RefreshMargin
      case _ => true
  }

  /** A token is kept only while its `created_at` is a timestamp, its
      `expires_in` usable, and the current time before the refresh point. */
  lemma KeptOnlyBeforeRefreshPoint(d: Doc, now: int)
    ensures !ShouldRefresh(d, now) <==>
      (CreatedAt(d).Some? && ExpiresIn(d).Some? && now < CreatedAt(d).value + ExpiresIn(d).value - RefreshMargin)
  {
  }

  /** The 10-minute boundary is exact: one second before expiry minus the
      margin the token is kept, at that instant it is refreshed; once due, a
      refresh stays due. */
  lemma RefreshBoundary(d: Doc, t: int, e: int, now: int, later: int)
    requires CreatedAt(d) == Some(t) && ExpiresIn(d) == Some(e)
    requires now <= later
    ensures !ShouldRefresh(d, t + e - RefreshMargin - 1)
    ensures ShouldRefresh(d, t + e - RefreshMargin)
    ensures ShouldRefresh(d, now) ==> ShouldRefresh(d, later)
  {
  }

  /** The refresh rule as written. Line 163 passes `firestore.SERVER_TIMESTAMP`,
      a sentinel instance rather than a class, to `isinstance`; that raises
      `TypeError` for every truthy `created_at`, and the handler answers True. */
  function ShouldRefreshAsWritten(d: Doc, now: int): bool {
    var c := Get(d, "created_at");
    if !Truthy(c) then true
    else
      // isinstance(created_at, firestore.SERVER_TIMESTAMP) raises TypeError
      true
  }

  /** As written, every token is reported as due for a refresh. */
  lemma ShouldRefreshAsWrittenAlwaysTrue(d: Doc, now: int)
    ensures ShouldRefreshAsWritten(d, now)
  {
  }

  /** A token created now with the default one-hour lifetime: the written rule
      asks for a refresh, the intended rule does not. */
  lemma ShouldRefreshCounterexample()
    ensures var d := map["created_at" := VTime(0), "expires_in" := VInt(3600)];
            ShouldRefreshAsWritten(d, 0) && !ShouldRefresh(d, 0)
  {
  }

  /** `refresh_token` is a placeholder that hands back the data it was given. */
  function RefreshToken(d: Doc): Doc {
    d
  }

  // ---------------------------------------------------------------------------
  // Local fallback files

  /** A file in the local fallback directories, in the order they are searched;
      `content` is None when the file does not decode as JSON. */
  datatype LocalFile = LocalFile(name: string, mtime: int, content: Option<Doc>)

  /** Matched by the pattern `token_*.json`. */
  predicate IsTokenFile(f: LocalFile) {
    |f.name| >= 11 && StartsWith(f.name, "token_") && EndsWith(f.name, ".json")
  }

  /** The file `_get_local_token` picks: a token file with the greatest
      modification time; among equal times the first one met wins. */
  function LatestTokenFile(files: seq<LocalFile>): (k: Option<nat>)
    ensures k.None? <==> forall i :: 0 <= i < |files| ==> !IsTokenFile(files[i])
    ensures k.Some? ==> k.value < |files| && IsTokenFile(files[k.value])
    ensures k.Some? ==> forall i :: 0 <= i < |files| && IsTokenFile(files[i]) ==> files[i].mtime <= files[k.value].mtime
    ensures k.Some? ==> forall i :: 0 <= i < k.value && IsTokenFile(files[i]) ==> files[i].mtime < files[k.value].mtime
  {
    if files == [] then None
    else
      var k := LatestTokenFile(files[..|files| - 1]);
      var last := |files| - 1;
      assert forall i :: 0 <= i < last ==> files[..last][i] == files[i];
      if IsTokenFile(files[last]) && (k.None? || files[k.value].mtime < files[last].mtime) then Some(last) else k
  }

  /** What `_get_local_token` returns: the content of the latest token file, or
      None when there is none or it does not decode. */
  function LocalToken(files: seq<LocalFile>): Option<Doc> {
    match LatestTokenFile(files)
    case None => None
    case Some(k) => files[k].content
  }

  /** Writing `f`: a file of the same name is overwritten, otherwise `f` is added. */
  function WriteFile(files: seq<LocalFile>, f: LocalFile): (out: seq<LocalFile>)
    ensures f in out
    ensures forall g :: g in out ==> g == f || g in files
    ensures forall g :: g in files && g.name != f.name ==> g in out
  {
    if files == [] then [f]
    else if files[0].name == f.name then [f] + files[1..]
    else [files[0]] + WriteFile(files[1..], f)
  }

  /** The file `_save_token_locally` writes. */
  function FallbackFile(tokenData: Doc, now: int, stamp: string): LocalFile {
    LocalFile("token_" + stamp + ".json", now, Some(tokenData))
  }

  /** A token saved locally after every existing file was last modified is
      the one the local fallback returns. */
  lemma SavedTokenIsLoaded(files: seq<LocalFile>, tokenData: Doc, now: int, stamp: string)
    requires forall i :: 0 <= i < |files| ==> files[i].mtime < now
    ensures LocalToken(WriteFile(files, FallbackFile(tokenData, now, stamp))) == Some(tokenData)
  {
    var f := FallbackFile(tokenData, now, stamp);
    var out := WriteFile(files, f);
    assert StartsWith(f.name, "token_") && EndsWith(f.name, ".json");
    var p :| 0 <= p < |out| && out[p] == f;
    var k := LatestTokenFile(out).value;
    assert out[k].mtime >= now;
    assert forall g :: g in files ==> g.mtime < now;
    assert out[k] in out;
  }

  // ---------------------------------------------------------------------------
  // The manager

  class TokenManager {
    /** The token collection, in the store's document order. */
    var records: seq<TokenRecord>
    /** The next document id the store will assign. */
    var nextId: nat
    /** The files of the local fallback directories, in search order. */
    var localFiles: seq<LocalFile>

    ghost predicate Valid()
      reads this
    {
      UniqueIds(records) && IdsBelow(records, nextId) && Stamped(records)
    }

    constructor (stored: seq<TokenRecord>, freshFrom: nat, files: seq<LocalFile>)
      requires UniqueIds(stored) && IdsBelow(stored, freshFrom) && Stamped(stored)
      ensures Valid()
      ensures records == stored && nextId == freshFrom && localFiles == files
    {
      records := stored;
      nextId := freshFrom;
      localFiles := files;
    }

    /** `_deactivate_active_tokens`: queue an `{'active': False}` update for
        every active record, then commit the batch. `commitOk` is false when
        the query or the commit fails; the error is swallowed and, the batch
        being atomic, nothing changes. */
    method DeactivateActiveTokens(commitOk: bool)
      requires Valid()
      modifies this`records
      ensures Valid()
      ensures records == if commitOk then DeactivateAll(old(records)) else old(records)
    {
      var batch: seq<nat> := [];
      var i := 0;
      while i < |records|
        invariant 0 <= i <= |records|
        invariant batch == ActiveIds(records[..i])
      {
        assert records[..i + 1][..i] == records[..i];
        if Active(records[i]) {
          batch := batch + [records[i].id];
        }
        i := i + 1;
      }
      assert records[..i] == records;
      if commitOk {
        BatchDeactivatesExactlyActive(records);
        DeactivateAllEffect(records);
        records := ApplyBatch(records, batch);
      }
    }

    /** `_save_token_locally`: write the token data to `token_<stamp>.json`.
        `saveOk` is false when neither directory could be written, which is
        swallowed. */
    method SaveTokenLocally(tokenData: Doc, now: int, stamp: string, saveOk: bool)
      modifies this`localFiles
      ensures localFiles == if saveOk then WriteFile(old(localFiles), FallbackFile(tokenData, now, stamp)) else old(localFiles)
    {
      if saveOk {
        localFiles := WriteFile(localFiles, FallbackFile(tokenData, now, stamp));
      }
    }

    /** `create_token_document`: deactivate the active records, then add the
        token with its metadata. When the add fails the token data goes to the
        local fallback and the error reaches the caller. */
    method CreateTokenDocument(tokenData: Doc, now: int, stamp: string, deactivateOk: bool, addOk: bool, saveOk: bool)
      returns (r: Outcome<nat>)
      requires Valid()
      modifies this
      ensures Valid()
      ensures r == if addOk then Returned(old(nextId)) else Raised
      ensures records == AfterInsert(old(records), deactivateOk,
                                     if addOk then [TokenRecord(old(nextId), NewTokenDoc(tokenData, now))] else [])
      ensures nextId == if addOk then old(nextId) + 1 else old(nextId)
      ensures localFiles == if addOk || !saveOk then old(localFiles)
                            else WriteFile(old(localFiles), FallbackFile(tokenData, now, stamp))
    {
      var doc := NewTokenDoc(tokenData, now);
      DeactivateActiveTokens(deactivateOk);
      if addOk {
        records := records + [TokenRecord(nextId, doc)];
        r := Returned(nextId);
        nextId := nextId + 1;
      } else {
        SaveTokenLocally(tokenData, now, stamp, saveOk);
        r := Raised;
      }
    }

    /** `_get_local_token`: scan the fallback files in search order, keeping
        the token file with the strictly latest modification time, then read it. */
    method GetLocalToken() returns (r: Option<Doc>)
      ensures r == LocalToken(localFiles)
    {
      var latestFile: Option<nat> := None;
      var latestTime := 0;
      var i := 0;
      while i < |localFiles|
        invariant 0 <= i <= |localFiles|
        invariant latestFile == LatestTokenFile(localFiles[..i])
        invariant latestFile.Some? ==> latestTime == localFiles[latestFile.value].mtime
      {
        assert localFiles[..i + 1][..i] == localFiles[..i];
        var f := localFiles[i];
        if IsTokenFile(f) && (latestFile.None? || f.mtime > latestTime) {
          latestTime := f.mtime;
          latestFile := Some(i);
        }
        i := i + 1;
      }
      assert localFiles[..i] == localFiles;
      if latestFile.Some? {
        r := localFiles[latestFile.value].content;
      } else {
        r := None;
      }
    }

    /** `get_active_token`: the newest active record, after its `last_used`
        is set. When a refresh is due the placeholder refresh hands the same
        data back. A failing query or update falls back to the local files. */
    method GetActiveToken(now: int, queryOk: bool, updateOk: bool) returns (r: Option<Doc>)
      requires Valid()
      modifies this`records
      ensures Valid()
      ensures !queryOk ==> records == old(records) && r == LocalToken(localFiles)
      ensures queryOk && NewestActive(old(records)).None? ==> records == old(records) && r == None
      ensures queryOk && !updateOk && NewestActive(old(records)).Some? ==>
                records == old(records) && r == LocalToken(localFiles)
      ensures queryOk && updateOk && NewestActive(old(records)).Some? ==>
                var k := NewestActive(old(records)).value;
                r == Some(old(records)[k].data) && records == old(records)[k := Touched(old(records)[k], now)]
    {
      if !queryOk {
        r := GetLocalToken();
        return;
      }
      var newest := NewestActive(records);
      if newest.None? {
        r := None;
        return;
      }
      var k := newest.value;
      var tokenData := records[k].data;
      if !updateOk {
        r := GetLocalToken();
        return;
      }
      records := records[k := Touched(records[k], now)];
      if ShouldRefresh(tokenData, now) {
        r := Some(RefreshToken(tokenData));
      } else {
        r := Some(tokenData);
      }
    }

    /** `update_token`: deactivate the active records, then add a copy of the
        token data flagged `is_active`. Any failure of the add is reported as
        False. */
    method UpdateToken(tokenData: Doc, now: int, deactivateOk: bool, addOk: bool, refreshedFrom: Value := VNone)
      returns (ok: bool)
      requires Valid()
      modifies this`records, this`nextId
      ensures Valid()
      ensures ok == addOk
      ensures records == AfterInsert(old(records), deactivateOk,
                                     if addOk then [TokenRecord(old(nextId), RefreshedTokenDoc(tokenData, now, refreshedFrom))] else [])
      ensures nextId == if addOk then old(nextId) + 1 else old(nextId)
    {
      DeactivateActiveTokens(deactivateOk);
      if addOk {
        records := records + [TokenRecord(nextId, RefreshedTokenDoc(tokenData, now, refreshedFrom))];
        nextId := nextId + 1;
      }
      ok := addOk;
    }
  }
}
