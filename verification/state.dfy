/**
  The persisted lifecycle record: its defaults, the merge-over-defaults performed when
  the state file is loaded, the save step, and the in-memory object the main loop mutates.
*/
module State {
  import opened Wrappers
  import Decimal

  /** A parsed JSON value. */
  datatype Json =
    | JNull
    | JBool(b: bool)
    | JNum(n: int)
    | JStr(s: string)
    | JArr(items: seq<Json>)
    | JObj(fields: map<string, Json>)

  /** The eight fields the agent persists, with the types it writes them with. */
  datatype StateRecord = StateRecord(
    currentShellIndex: int,
    shellBornAt: int,              // epoch milliseconds
    txCount: int,
    totalValueMoved: string,       // wei as decimal text, so large values keep every digit
    actionsSinceCast: int,
    totalMolts: int,
    lastMentionTimestamp: Option<string>,
    repliedHashes: seq<string>)

  /**
    DEFAULT_STATE. Its `shellBornAt` is the clock reading taken when the state module
    was loaded, passed in as `loadedAt`.
  */
  function DefaultRecord(loadedAt: int): (r: StateRecord)
    ensures r.currentShellIndex == 0 && r.txCount == 0 && r.totalValueMoved == "0"
    ensures r.actionsSinceCast == 0 && r.totalMolts == 0
    ensures r.lastMentionTimestamp == None && r.repliedHashes == []
    ensures r.shellBornAt == loadedAt
    ensures Decimal.ParseBigInt(r.totalValueMoved) == Some(0)
  {
    StateRecord(0, loadedAt, 0, "0", 0, 0, None, [])
  }

  const FIELD_NAMES: set<string> := {
    "currentShellIndex", "shellBornAt", "txCount", "totalValueMoved",
    "actionsSinceCast", "totalMolts", "lastMentionTimestamp", "repliedHashes"}

  function StringsToJson(ss: seq<string>): (js: seq<Json>)
    ensures |js| == |ss|
    ensures forall i :: 0 <= i < |ss| ==> js[i] == JStr(ss[i])
  {
    if ss == [] then [] else [JStr(ss[0])] + StringsToJson(ss[1..])
  }

  /** The JSON object `JSON.stringify` writes for a record. */
  function Encode(r: StateRecord): (obj: map<string, Json>)
    ensures obj.Keys == FIELD_NAMES
  {
    map[
      "currentShellIndex" := JNum(r.currentShellIndex),
      "shellBornAt" := JNum(r.shellBornAt),
      "txCount" := JNum(r.txCount),
      "totalValueMoved" := JStr(r.totalValueMoved),
      "actionsSinceCast" := JNum(r.actionsSinceCast),
      "totalMolts" := JNum(r.totalMolts),
      "lastMentionTimestamp" := (match r.lastMentionTimestamp
                                 case None => JNull
                                 case Some(t) => JStr(t)),
      "repliedHashes" := JArr(StringsToJson(r.repliedHashes))]
  }

  function JsonToStrings(js: seq<Json>): Option<seq<string>>
  {
    if js == [] then Some([])
    else match (js[0], JsonToStrings(js[1..]))
      case (JStr(s), Some(rest)) => Some([s] + rest)
      case _ => None
  }

  /**
    Reads the eight fields back when each holds the JSON type the agent writes;
    None otherwise.
  */
  function Decode(obj: map<string, Json>): Option<StateRecord>
  {
    if FIELD_NAMES <= obj.Keys
       && obj["currentShellIndex"].JNum? && obj["shellBornAt"].JNum? && obj["txCount"].JNum?
       && obj["totalValueMoved"].JStr? && obj["actionsSinceCast"].JNum?
       && obj["totalMolts"].JNum?
       && (obj["lastMentionTimestamp"].JNull? || obj["lastMentionTimestamp"].JStr?)
       && obj["repliedHashes"].JArr?
    then
      match JsonToStrings(obj["repliedHashes"].items)
      case None => None
      case Some(hashes) =>
        Some(StateRecord(
          obj["currentShellIndex"].n, obj["shellBornAt"].n, obj["txCount"].n,
          obj["totalValueMoved"].s, obj["actionsSinceCast"].n, obj["totalMolts"].n,
          if obj["lastMentionTimestamp"].JStr? then Some(obj["lastMentionTimestamp"].s) else None,
          hashes))
    else None
  }

  lemma {:induction false} JsonToStringsRoundTrip(ss: seq<string>)
    ensures JsonToStrings(StringsToJson(ss)) == Some(ss)
  {
    if ss != [] {
      var js := StringsToJson(ss);
      assert js[0] == JStr(ss[0]) && js[1..] == StringsToJson(ss[1..]);
      JsonToStringsRoundTrip(ss[1..]);
      assert [ss[0]] + ss[1..] == ss;
    }
  }

  /** Decoding what was encoded gives back the same record, field for field. */
  lemma DecodeEncode(r: StateRecord)
    ensures Decode(Encode(r)) == Some(r)
  {
    JsonToStringsRoundTrip(r.repliedHashes);
  }

  /** What the state file holds when the agent starts. */
  datatype StateFile =
    | Missing                 // no file at the path
    | Unreadable              // reading or JSON.parse throws
    | Document(value: Json)   // the parsed document

  /** `{...DEFAULT_STATE}` as a JSON object. */
  function DefaultState(loadedAt: int): map<string, Json>
  {
    Encode(DefaultRecord(loadedAt))
  }

  /** The entries "0", "1", ... that spreading an array (or a string's characters) contributes. */
  function IndexEntries(items: seq<Json>): (m: map<string, Json>)
    ensures m.Keys == IndexTexts(|items|)
    ensures forall k :: k in m ==> Decimal.AllDigits(k)
  {
    if items == [] then map[]
    else
      IndexKeysSnoc(|items| - 1);
      IndexEntries(items[..|items| - 1])[Decimal.NatToString(|items| - 1) := items[|items| - 1]]
  }

  /** The texts "0", "1", ... of the first `n` indices. */
  function IndexTexts(n: nat): set<string>
  {
    set i | 0 <= i < n :: Decimal.NatToString(i)
  }

  /** The index texts of `n + 1` items: those of `n` items and the text of `n`. */
  lemma IndexKeysSnoc(n: nat)
    ensures IndexTexts(n + 1) == IndexTexts(n) + {Decimal.NatToString(n)}
  {
    forall k | k in IndexTexts(n + 1)
      ensures k in IndexTexts(n) + {Decimal.NatToString(n)}
    {
      var i :| 0 <= i < n + 1 && k == Decimal.NatToString(i);
      if i < n {
        assert k in IndexTexts(n);
      }
    }
  }

  /** The entry under the text of index `i` is the `i`-th item. */
  lemma {:induction false} IndexEntriesAt(items: seq<Json>, i: nat)
    requires i < |items|
    ensures IndexEntries(items)[Decimal.NatToString(i)] == items[i]
  {
    var n := |items| - 1;
    if i < n {
      IndexEntriesAt(items[..n], i);
      Decimal.NatToStringInjective(i, n);
    }
  }

  function CharsToJson(s: string): (js: seq<Json>)
    ensures |js| == |s|
  {
    if s == [] then [] else [JStr([s[0]])] + CharsToJson(s[1..])
  }

  /** The own enumerable properties that `...value` copies. */
  function OwnEntries(value: Json): map<string, Json>
  {
    match value
    case JObj(fields) => fields
    case JArr(items) => IndexEntries(items)
    case JStr(s) => IndexEntries(CharsToJson(s))
    case _ => map[]
  }

  /**
    `loadState`: `{ ...DEFAULT_STATE, ...parsed }` for a parsed file, the defaults
    for a missing or unreadable one.
  */
  function LoadState(file: StateFile, loadedAt: int): (r: map<string, Json>)
    ensures !file.Document? ==> r == DefaultState(loadedAt)
    ensures file.Document? ==>
      var parsed := OwnEntries(file.value);
      && r.Keys == FIELD_NAMES + parsed.Keys
      && (forall k :: k in parsed ==> r[k] == parsed[k])
      && (forall k :: k in FIELD_NAMES && k !in parsed ==> r[k] == DefaultState(loadedAt)[k])
  {
    match file
    case Document(value) => DefaultState(loadedAt) + OwnEntries(value)
    case _ => DefaultState(loadedAt)
  }

  /**
    `saveState`: a successful write replaces the file with the state's JSON; a failed
    write is swallowed and leaves the file as it was. No error reaches the caller.
  */
  function SaveState(state: StateRecord, previous: StateFile, writeSucceeds: bool): (file: StateFile)
    ensures writeSucceeds ==> file == Document(JObj(Encode(state)))
    ensures !writeSucceeds ==> file == previous
  {
    if writeSucceeds then Document(JObj(Encode(state))) else previous
  }

  /** A missing or unreadable file loads as DEFAULT_STATE. */
  lemma LoadWithoutFileIsDefault(file: StateFile, loadedAt: int)
    requires !file.Document?
    ensures Decode(LoadState(file, loadedAt)) == Some(DefaultRecord(loadedAt))
  {
    DecodeEncode(DefaultRecord(loadedAt));
  }

  /** Saving a record and loading it back reproduces every field exactly. */
  lemma SaveLoadRoundTrip(state: StateRecord, previous: StateFile, loadedAt: int)
    ensures LoadState(SaveState(state, previous, true), loadedAt) == Encode(state)
    ensures Decode(LoadState(SaveState(state, previous, true), loadedAt)) == Some(state)
  {
    var saved := Encode(state);
    var loaded := LoadState(SaveState(state, previous, true), loadedAt);
    assert loaded.Keys == saved.Keys;
    DecodeEncode(state);
  }

  /** Loading, changing nothing and saving again writes back exactly what was loaded. */
  lemma LoadSaveIdempotent(state: StateRecord, loadedAt: int)
    ensures Decode(LoadState(Document(JObj(Encode(state))), loadedAt)) == Some(state)
    ensures var file := Document(JObj(Encode(state)));
            SaveState(Decode(LoadState(file, loadedAt)).value, file, true) == file
  {
    SaveLoadRoundTrip(state, Missing, loadedAt);
  }

  /** The in-memory state object that the main loop updates field by field. */
  class AgentState {
    var currentShellIndex: int
    var shellBornAt: int
    var txCount: int
    var totalValueMoved: string
    var actionsSinceCast: int
    var totalMolts: int
    var lastMentionTimestamp: Option<string>
    var repliedHashes: seq<string>

    constructor (r: StateRecord)
      ensures Record() == r
    {
      currentShellIndex := r.currentShellIndex;
      shellBornAt := r.shellBornAt;
      txCount := r.txCount;
      totalValueMoved := r.totalValueMoved;
      actionsSinceCast := r.actionsSinceCast;
      totalMolts := r.totalMolts;
      lastMentionTimestamp := r.lastMentionTimestamp;
      repliedHashes := r.repliedHashes;
    }

    /** The object's current value, as saveState would write it. */
    function Record(): StateRecord
      reads this
    {
      StateRecord(currentShellIndex, shellBornAt, txCount, totalValueMoved,
                  actionsSinceCast, totalMolts, lastMentionTimestamp, repliedHashes)
    }
  }
}
