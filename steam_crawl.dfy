/**
 * The Steam review crawler: the top games are read off the first search
 * page, the English reviews of each are fetched page by page from the
 * `appreviews` JSON endpoint (cursor paging, up to three attempts per page,
 * de-duplication by review id, a per-game cap), every review is flattened
 * into one 23-field record, the records are written as JSONL and CSV, and
 * per-game and batch statistics count the `voted_up` labels.
 *
 * The network is a scripted server: the responses to successive requests of
 * one game are a list given in advance. Timestamp formatting and Python's
 * `repr` of composite values are parameters.
 */
module SteamCrawl {
  import opened Wrappers
  import opened Text
  import opened Seqs
  import opened Counters
  import Regex

  // ---------------------------------------------------------------- JSON values

  /** A decoded JSON value. An object is what `json.loads` makes of it: a
      dictionary, where a repeated key keeps its last value. */
  datatype Json =
    | Null
    | Bool(b: bool)
    | Int(i: int)
    | Str(s: string)
    | Arr(items: seq<Json>)
    | Obj(members: map<string, Json>)

  /** Python truthiness of the decoded value. */
  predicate Truthy(v: Json) {
    match v
    case Null => false
    case Bool(b) => b
    case Int(i) => i != 0
    case Str(s) => s != []
    case Arr(items) => items != []
    case Obj(members) => members != map[]
  }

  /** Lists and dicts cannot be members of a Python set. */
  predicate Hashable(v: Json) {
    !v.Arr? && !v.Obj?
  }

  /** The value stored under `k`, if any. */
  function Lookup(fields: seq<(string, Json)>, k: string): Option<Json> {
    if fields == [] then None
    else if fields[0].0 == k then Some(fields[0].1)
    else Lookup(fields[1..], k)
  }

  /** The first member named `k` is the one found. */
  lemma {:induction false} LookupAt(fields: seq<(string, Json)>, k: string, i: nat)
    requires i < |fields| && fields[i].0 == k
    requires forall j :: 0 <= j < i ==> fields[j].0 != k
    ensures Lookup(fields, k) == Some(fields[i].1)
  {
    if i > 0 {
      LookupAt(fields[1..], k, i - 1);
    }
  }

  /** A key no member has is not found. */
  lemma {:induction false} LookupAbsent(fields: seq<(string, Json)>, k: string)
    requires forall j :: 0 <= j < |fields| ==> fields[j].0 != k
    ensures Lookup(fields, k) == None
  {
    if fields != [] {
      LookupAbsent(fields[1..], k);
    }
  }

  /** `rec.get(k)` on a record: `None` (JSON null) when absent. */
  function Field(fields: seq<(string, Json)>, k: string): Json {
    Lookup(fields, k).GetOr(Null)
  }

  /** `d.get(k)` on a decoded object: `None` (JSON null) when absent. */
  function Member(o: map<string, Json>, k: string): Json {
    if k in o then o[k] else Null
  }

  /** What the crawler cannot compute itself. */
  datatype Env = Env(
    toIso: int -> Option<string>,  // datetime.fromtimestamp(ts, utc).isoformat(); None when out of range
    repr: Json -> string)          // str() of a list or a dict

  /** `str(v)`. */
  function PyStr(v: Json, env: Env): string {
    match v
    case Null => "None"
    case Bool(b) => if b then "True" else "False"
    case Int(i) => IntToString(i)
    case Str(s) => s
    case _ => env.repr(v)
  }

  /** `str(v or "")`: the review id as the crawler keys it. */
  function ReviewId(v: Json, env: Env): (r: string)
    ensures !Truthy(v) ==> r == ""
    ensures v.Str? ==> r == v.s
    ensures v.Int? && v.i != 0 ==> r == IntToString(v.i)
  {
    if Truthy(v) then PyStr(v, env) else ""
  }

  /** `int(v)`: booleans are 0 and 1, text is parsed, lists, dicts and null raise. */
  function PyInt(v: Json): (r: Option<int>)
    ensures v.Int? ==> r == Some(v.i)
    ensures v.Null? || v.Arr? || v.Obj? ==> r.None?
  {
    match v
    case Bool(b) => Some(if b then 1 else 0)
    case Int(i) => Some(i)
    case Str(s) => ParseInt(s)
    case _ => None
  }

  /** `ts_to_iso_utc`: null for a missing or unreadable timestamp. */
  function TsToIsoUtc(ts: Json, env: Env): (r: Json)
    ensures r.Null? || r.Str?
    ensures ts.Null? ==> r.Null?
    ensures ts.Int? ==> r == (match env.toIso(ts.i) case Some(t) => Str(t) case None => Null)
  {
    if ts.Null? then Null
    else
      match PyInt(ts)
      case None => Null
      case Some(n) =>
        match env.toIso(n)
        case Some(t) => Str(t)
        case None => Null
  }

  // ---------------------------------------------------------------- normalised records

  /** A record as written to or read from the JSONL file: an ordered list of fields. */
  type Record = seq<(string, Json)>

  function RecordKeys(r: Record): seq<string> {
    seq(|r|, i requires 0 <= i < |r| => r[i].0)
  }

  /** A review as `normalize_review` flattens it; the `source` field is always "steam". */
  datatype NormReview = NormReview(
    appid: int, reviewId: string, steamLanguage: Json, createdAt: Json, updatedAt: Json,
    votedUp: Json, votesUp: Json, votesFunny: Json, commentCount: Json,
    weightedVoteScore: Json, steamPurchaseType: Json, receivedForFree: Json,
    writtenDuringEarlyAccess: Json, steamDeck: Json, reviewText: Json,
    authorSteamid: Json, authorNumGamesOwned: Json, authorNumReviews: Json,
    authorPlaytimeForever: Json, authorPlaytimeLastTwoWeeks: Json,
    authorPlaytimeAtReview: Json, authorLastPlayed: Json)

  /** The fields of a normalised review, in the order they are written. */
  const REVIEW_KEYS: seq<string> := [
    "source", "appid", "review_id", "steam_language", "created_at", "updated_at",
    "voted_up", "votes_up", "votes_funny", "comment_count", "weighted_vote_score",
    "steam_purchase_type", "received_for_free", "written_during_early_access",
    "steam_deck", "review_text", "author_steamid", "author_num_games_owned",
    "author_num_reviews", "author_playtime_forever", "author_playtime_last_two_weeks",
    "author_playtime_at_review", "author_last_played"]

  /** The JSONL line of a normalised review (`json.dumps` of the dict). */
  function ToRecord(r: NormReview): (rec: Record)
    ensures RecordKeys(rec) == REVIEW_KEYS
  {
    var rec := [
      ("source", Str("steam")), ("appid", Int(r.appid)), ("review_id", Str(r.reviewId)),
      ("steam_language", r.steamLanguage), ("created_at", r.createdAt), ("updated_at", r.updatedAt),
      ("voted_up", r.votedUp), ("votes_up", r.votesUp), ("votes_funny", r.votesFunny),
      ("comment_count", r.commentCount), ("weighted_vote_score", r.weightedVoteScore),
      ("steam_purchase_type", r.steamPurchaseType), ("received_for_free", r.receivedForFree),
      ("written_during_early_access", r.writtenDuringEarlyAccess), ("steam_deck", r.steamDeck),
      ("review_text", r.reviewText), ("author_steamid", r.authorSteamid),
      ("author_num_games_owned", r.authorNumGamesOwned), ("author_num_reviews", r.authorNumReviews),
      ("author_playtime_forever", r.authorPlaytimeForever),
      ("author_playtime_last_two_weeks", r.authorPlaytimeLastTwoWeeks),
      ("author_playtime_at_review", r.authorPlaytimeAtReview),
      ("author_last_played", r.authorLastPlayed)];
    assert forall j :: 0 <= j < |rec| ==> rec[j].0 == REVIEW_KEYS[j];
    rec
  }

  /** Reading the line back gives the review's source, id and vote. */
  lemma ToRecordFields(r: NormReview)
    ensures var rec := ToRecord(r);
      Field(rec, "source") == Str("steam") && Field(rec, "review_id") == Str(r.reviewId) &&
      Field(rec, "voted_up") == r.votedUp
  {
    var rec := ToRecord(r);
    ReviewKeyPositions();
    assert forall j :: 0 <= j < |rec| ==> rec[j].0 == RecordKeys(rec)[j];
    assert rec[0].1 == Str("steam") && rec[2].1 == Str(r.reviewId) && rec[6].1 == r.votedUp;
    LookupAt(rec, "source", 0);
    LookupAt(rec, "review_id", 2);
    LookupAt(rec, "voted_up", 6);
  }

  /** Where the source, the review id and the vote sit among the review fields. */
  lemma ReviewKeyPositions()
    ensures REVIEW_KEYS[0] == "source" && REVIEW_KEYS[2] == "review_id" && REVIEW_KEYS[6] == "voted_up"
    ensures forall j :: 0 <= j < 2 ==> REVIEW_KEYS[j] != "review_id"
    ensures forall j :: 0 <= j < 6 ==> REVIEW_KEYS[j] != "voted_up"
  {
    var ks := REVIEW_KEYS[..6];
    assert ks == ["source", "appid", "review_id", "steam_language", "created_at", "updated_at"];
    assert forall j :: 0 <= j < 6 ==> |ks[j]| != |"voted_up"|;
  }

  /** `normalize_review`; `None` where it raises, which is when the review's
      `author` is a truthy value that is not an object (a falsy one reads as `{}`). */
  function NormalizeReview(appid: int, review: map<string, Json>, env: Env): (r: Option<NormReview>)
    ensures var a := Member(review, "author"); r.None? <==> Truthy(a) && !a.Obj?
    ensures r.Some? ==> r.value.appid == appid
    ensures r.Some? ==> r.value.reviewId == ReviewId(Member(review, "recommendationid"), env)
    ensures r.Some? ==> r.value.votedUp == Member(review, "voted_up")
    ensures r.Some? && !Truthy(Member(review, "author")) ==>
              r.value.authorSteamid.Null? && r.value.authorLastPlayed.Null?
  {
    var a := Member(review, "author");
    if Truthy(a) && !a.Obj? then None
    else
      var author := if Truthy(a) then a.members else map[];
      Some(NormReview(
        appid, ReviewId(Member(review, "recommendationid"), env),
        Member(review, "language"),
        TsToIsoUtc(Member(review, "timestamp_created"), env),
        TsToIsoUtc(Member(review, "timestamp_updated"), env),
        Member(review, "voted_up"), Member(review, "votes_up"), Member(review, "votes_funny"),
        Member(review, "comment_count"), Member(review, "weighted_vote_score"),
        Member(review, "purchase_type"), Member(review, "received_for_free"),
        Member(review, "written_during_early_access"), Member(review, "steam_deck"),
        Member(review, "review"),
        Member(author, "steamid"), Member(author, "num_games_owned"), Member(author, "num_reviews"),
        Member(author, "playtime_forever"), Member(author, "playtime_last_two_weeks"),
        Member(author, "playtime_at_review"),
        TsToIsoUtc(Member(author, "last_played"), env)))
  }

  /** The review id of a normalised review. */
  function IdOf(r: NormReview): string {
    r.reviewId
  }

  /** The label proxy: `voted_up is True`, `is False`, or anything else. */
  function LabelOf(r: NormReview): (l: string)
    ensures l in {"positive", "negative", "unknown"}
    ensures l == "positive" <==> r.votedUp == Bool(true)
    ensures l == "negative" <==> r.votedUp == Bool(false)
  {
    match r.votedUp
    case Bool(b) => if b then "positive" else "negative"
    case _ => "unknown"
  }

  /** No two reviews share an id and none has an empty one. */
  predicate GoodLines(lines: seq<NormReview>) {
    (forall i :: 0 <= i < |lines| ==> IdOf(lines[i]) != "") &&
    (forall i, j :: 0 <= i < j < |lines| ==> IdOf(lines[i]) != IdOf(lines[j]))
  }

  /** The `seen_ids` set after the reviews of `lines`. */
  function Ids(lines: seq<NormReview>): set<string> {
    if lines == [] then {} else Ids(lines[..|lines| - 1]) + {IdOf(lines[|lines| - 1])}
  }

  /** The ids seen are exactly the ids of the lines. */
  lemma {:induction false} IdsMembers(lines: seq<NormReview>)
    ensures forall i :: 0 <= i < |lines| ==> IdOf(lines[i]) in Ids(lines)
    ensures forall x :: x in Ids(lines) ==> exists i :: 0 <= i < |lines| && IdOf(lines[i]) == x
  {
    if lines != [] {
      var init := lines[..|lines| - 1];
      IdsMembers(init);
      assert forall i :: 0 <= i < |init| ==> lines[i] == init[i];
    }
  }

  /** The label counter after the reviews of `lines`: one `+= 1` per line, in order. */
  function LabelCounter(lines: seq<NormReview>): Counter<string> {
    if lines == [] then [] else Add(LabelCounter(lines[..|lines| - 1]), LabelOf(lines[|lines| - 1]), 1)
  }

  /** The running counter is `Counter` updated with the list of labels. */
  lemma {:induction false} LabelCounterIsUpdate(lines: seq<NormReview>)
    ensures LabelCounter(lines) == Update([], Map(lines, LabelOf))
  {
    if lines != [] {
      var init := lines[..|lines| - 1];
      LabelCounterIsUpdate(init);
      var xs := Map(lines, LabelOf);
      assert xs[..|xs| - 1] == Map(init, LabelOf);
    }
  }

  /** The label distribution counts every record exactly once, under one of
      the three labels, each label listed once. */
  lemma LabelCounterFacts(lines: seq<NormReview>)
    ensures var c := LabelCounter(lines);
      Sum(c) == |lines| && WellFormed(c) &&
      Get(c, "positive") + Get(c, "negative") + Get(c, "unknown") == |lines| &&
      forall k :: k in Keys(c) ==> k in {"positive", "negative", "unknown"}
  {
    var xs := Map(lines, LabelOf);
    var empty: Counter<string> := [];
    LabelCounterIsUpdate(lines);
    SumUpdate(empty, xs);
    LabelCounterKeys(lines);
    LabelCounterGets(lines);
  }

  lemma LabelCounterKeys(lines: seq<NormReview>)
    ensures WellFormed(LabelCounter(lines))
    ensures forall k :: k in Keys(LabelCounter(lines)) ==> k in {"positive", "negative", "unknown"}
  {
    var xs := Map(lines, LabelOf);
    var empty: Counter<string> := [];
    LabelCounterIsUpdate(lines);
    KeysUpdate(empty, xs);
    assert Keys(empty) + xs == xs;
    DedupDistinct(xs);
    forall k | k in Keys(LabelCounter(lines)) ensures k in {"positive", "negative", "unknown"} {
      DedupMember(xs, k);
      var i :| 0 <= i < |xs| && xs[i] == k;
      assert k == LabelOf(lines[i]);
    }
  }

  lemma LabelCounterGets(lines: seq<NormReview>)
    ensures var c := LabelCounter(lines);
      Get(c, "positive") + Get(c, "negative") + Get(c, "unknown") == |lines|
  {
    var xs := Map(lines, LabelOf);
    var empty: Counter<string> := [];
    LabelCounterIsUpdate(lines);
    GetUpdate(empty, xs, "positive");
    GetUpdate(empty, xs, "negative");
    GetUpdate(empty, xs, "unknown");
    LabelsMultiset(lines);
  }

  lemma {:induction false} LabelsMultiset(lines: seq<NormReview>)
    ensures var m := multiset(Map(lines, LabelOf));
      m["positive"] + m["negative"] + m["unknown"] == |lines|
  {
    if lines != [] {
      LabelsMultiset(lines[1..]);
      assert Map(lines, LabelOf) == [LabelOf(lines[0])] + Map(lines[1..], LabelOf);
    }
  }

  /** Appending a record with a new id keeps the log well formed and counts its label once. */
  lemma LinesSnoc(lines: seq<NormReview>, r: NormReview)
    requires GoodLines(lines)
    requires IdOf(r) != "" && IdOf(r) !in Ids(lines)
    ensures GoodLines(lines + [r])
    ensures Ids(lines + [r]) == Ids(lines) + {IdOf(r)}
    ensures LabelCounter(lines + [r]) == Add(LabelCounter(lines), LabelOf(r), 1)
  {
    var t := lines + [r];
    assert t[..|lines|] == lines;
    IdsMembers(lines);
    assert forall i :: 0 <= i < |lines| ==> t[i] == lines[i];
  }

  // ---------------------------------------------------------------- CSV

  /** The header used when there is nothing to write. */
  const DEFAULT_HEADER: seq<string> := ["source", "appid", "review_id", "created_at", "voted_up", "review_text"]

  /** A CSV table: header and rows; a cell is `None` where the record lacks
      the column (`DictWriter` writes the empty string). */
  datatype Csv = Csv(header: seq<string>, rows: seq<seq<Option<Json>>>)

  /** The header is the union of the records' keys, in order of first appearance. */
  function HeaderOf(rows: seq<Record>): seq<string> {
    Dedup(Flatten(Map(rows, RecordKeys)))
  }

  function CsvRow(r: Record, header: seq<string>): (cells: seq<Option<Json>>)
    ensures |cells| == |header|
    ensures forall i :: 0 <= i < |header| ==> cells[i] == Lookup(r, header[i])
  {
    Map(header, k => Lookup(r, k))
  }

  /** The table `write_csv_from_jsonl` writes: `stream` is the JSONL file's
      records, `None` when the file does not exist. */
  function CsvOf(stream: Option<seq<Record>>): Csv {
    match stream
    case None => Csv(DEFAULT_HEADER, [])
    case Some(rows) =>
      if rows == [] then Csv(DEFAULT_HEADER, [])
      else
        var h := HeaderOf(rows);
        Csv(h, Map(rows, (r: Record) => CsvRow(r, h)))
  }

  /** The header names every key of every record once, and no other column,
      in the order in which the keys first appear in the file. */
  lemma HeaderFacts(rows: seq<Record>)
    ensures Distinct(HeaderOf(rows))
    ensures forall k :: k in HeaderOf(rows) <==> exists i :: 0 <= i < |rows| && k in RecordKeys(rows[i])
    ensures var all := Flatten(Map(rows, RecordKeys));
      forall i, j :: 0 <= i < j < |HeaderOf(rows)| ==>
        HeaderOf(rows)[i] in all && HeaderOf(rows)[j] in all &&
        FirstIndex(all, HeaderOf(rows)[i]) < FirstIndex(all, HeaderOf(rows)[j])
  {
    var ks := Map(rows, RecordKeys);
    var all := Flatten(ks);
    DedupDistinct(all);
    DedupElements(all);
    forall k ensures k in all <==> exists i :: 0 <= i < |rows| && k in RecordKeys(rows[i]) {
      if k in all {
        FlattenMembers(ks, k);
      }
      if exists i :: 0 <= i < |rows| && k in RecordKeys(rows[i]) {
        var i :| 0 <= i < |rows| && k in RecordKeys(rows[i]);
        FlattenElements(ks, i, k);
      }
    }
    forall i, j | 0 <= i < j < |HeaderOf(rows)|
      ensures HeaderOf(rows)[i] in all && HeaderOf(rows)[j] in all &&
              FirstIndex(all, HeaderOf(rows)[i]) < FirstIndex(all, HeaderOf(rows)[j])
    {
      DedupFirstSeenOrder(all, i, j);
    }
  }

  lemma ReviewKeysDistinct()
    ensures Distinct(REVIEW_KEYS)
  {
  }

  /** Records that all have the review fields give exactly those columns. */
  lemma ReviewCsvHeader(rows: seq<Record>)
    requires rows != []
    requires forall i :: 0 <= i < |rows| ==> RecordKeys(rows[i]) == REVIEW_KEYS
    ensures CsvOf(Some(rows)).header == REVIEW_KEYS
  {
    ReviewKeysDistinct();
    DedupOfCopies(Map(rows, RecordKeys), REVIEW_KEYS);
  }

  /** One key of the inner loop: appended exactly when not seen before. */
  lemma AddKeyStep(acc: seq<string>, k: string, fieldnames: seq<string>, seen: set<string>)
    requires fieldnames == Dedup(acc)
    requires forall x :: x in seen <==> x in fieldnames
    ensures Dedup(acc + [k]) == if k in seen then fieldnames else fieldnames + [k]
  {
    DedupSnoc(acc, k);
    DedupElements(acc);
  }

  lemma HeaderRow(rows: seq<Record>, i: nat)
    requires i < |rows|
    ensures Flatten(Map(rows[..i + 1], RecordKeys)) == Flatten(Map(rows[..i], RecordKeys)) + RecordKeys(rows[i])
  {
    assert rows[..i + 1] == rows[..i] + [rows[i]];
    MapAppend(rows[..i], [rows[i]], RecordKeys);
    FlattenSnoc(Map(rows[..i], RecordKeys), RecordKeys(rows[i]));
  }

  /** The body of the inner loop of the header pass: a key not seen yet is appended. */
  method AddKey(fieldnames0: seq<string>, seen0: set<string>, ghost acc: seq<string>, k: string)
    returns (fieldnames: seq<string>, seen: set<string>)
    requires fieldnames0 == Dedup(acc)
    requires forall x :: x in seen0 <==> x in fieldnames0
    ensures fieldnames == Dedup(acc + [k])
    ensures forall x :: x in seen <==> x in fieldnames
  {
    AddKeyStep(acc, k, fieldnames0, seen0);
    fieldnames, seen := fieldnames0, seen0;
    if k !in seen {
      seen := seen + {k};
      fieldnames := fieldnames + [k];
    }
  }

  /** The inner loop of the header pass: the keys of one record, each new one appended. */
  method AddKeys(fieldnames0: seq<string>, seen0: set<string>, ghost done: seq<string>, ks: seq<string>)
    returns (fieldnames: seq<string>, seen: set<string>)
    requires fieldnames0 == Dedup(done)
    requires forall x :: x in seen0 <==> x in fieldnames0
    ensures fieldnames == Dedup(done + ks)
    ensures forall x :: x in seen <==> x in fieldnames
  {
    fieldnames, seen := fieldnames0, seen0;
    ghost var acc := done;
    for j := 0 to |ks|
      invariant acc == done + ks[..j]
      invariant fieldnames == Dedup(acc)
      invariant forall x :: x in seen <==> x in fieldnames
    {
      fieldnames, seen := AddKey(fieldnames, seen, acc, ks[j]);
      assert ks[..j + 1] == ks[..j] + [ks[j]];
      acc := acc + [ks[j]];
    }
    assert ks[..|ks|] == ks;
  }

  /** The header pass of `write_csv_from_jsonl`. */
  method FieldNames(rows: seq<Record>) returns (fieldnames: seq<string>)
    ensures fieldnames == HeaderOf(rows)
  {
    fieldnames := [];
    var seen: set<string> := {};
    for i := 0 to |rows|
      invariant fieldnames == Dedup(Flatten(Map(rows[..i], RecordKeys)))
      invariant forall x :: x in seen <==> x in fieldnames
    {
      HeaderRow(rows, i);
      fieldnames, seen := AddKeys(fieldnames, seen, Flatten(Map(rows[..i], RecordKeys)), RecordKeys(rows[i]));
    }
    assert rows[..|rows|] == rows;
  }

  /** `write_csv_from_jsonl`. */
  method WriteCsvFromJsonl(stream: Option<seq<Record>>) returns (csv: Csv)
    ensures csv == CsvOf(stream)
  {
    if stream.None? || stream.value == [] {
      return Csv(DEFAULT_HEADER, []);
    }
    var rows := stream.value;
    var fieldnames := FieldNames(rows);
    var out: seq<seq<Option<Json>>> := [];
    for i := 0 to |rows|
      invariant |out| == i && forall k :: 0 <= k < i ==> out[k] == CsvRow(rows[k], fieldnames)
    {
      out := out + [CsvRow(rows[i], fieldnames)];
    }
    csv := Csv(fieldnames, out);
  }

  // ---------------------------------------------------------------- top app ids

  const APPID_ATTR: string := "data-ds-appid=\""

  predicate IsDigitOrComma(c: char) { IsDigit(c) || c == ',' }

  /** A captured `[0-9,]+` group. */
  predicate IsAttrValue(g: string) {
    g != [] && forall i :: 0 <= i < |g| ==> IsDigitOrComma(g[i])
  }

  type AttrValue = g: string | IsAttrValue(g) witness "0"

  /** `data-ds-appid="([0-9,]+)"` at `p`: the group and the end of the match. */
  function AttrAt(html: string, p: nat): (r: Option<(AttrValue, nat)>)
    requires p <= |html|
    ensures r.Some? ==> p < r.value.1 <= |html|
  {
    if !StartsWith(html[p..], APPID_ATTR) then None
    else
      var q := p + |APPID_ATTR|;
      var n := Regex.RunLen(html, q, IsDigitOrComma, None);
      if n == 0 || q + n >= |html| || html[q + n] != '"' then None
      else
        var g := html[q..q + n];
        assert IsAttrValue(g);
        Some((g, q + n + 1))
  }

  /** `re.finditer` over the page from `p`: the group of every match, left to
      right, scanning on after each match. */
  function FindAttrs(html: string, p: nat): seq<AttrValue>
    requires p <= |html|
    decreases |html| - p
  {
    if p == |html| then []
    else
      match AttrAt(html, p)
      case Some((g, e)) => [g] + FindAttrs(html, e)
      case None => FindAttrs(html, p + 1)
  }

  /** `raw.split(",", 1)[0]`. */
  function BeforeComma(raw: string): (r: string)
    ensures |r| <= |raw| && r == raw[..|r|] && ',' !in r
    ensures |r| < |raw| ==> raw[|r|] == ','
  {
    if raw == [] || raw[0] == ',' then []
    else [raw[0]] + BeforeComma(raw[1..])
  }

  /** `int(raw.split(",", 1)[0])` on a captured group: the leading digits,
      `None` (the `ValueError`) when the group starts with a comma. */
  function AppidOf(raw: AttrValue): (r: Option<int>)
    ensures r.None? <==> raw[0] == ','
    ensures r.Some? ==> r.value >= 0
  {
    var f := BeforeComma(raw);
    assert forall i :: 0 <= i < |f| ==> f[i] == raw[i] && f[i] != ',';
    if f == [] then None else Some(DigitsValue(f))
  }

  /** On a captured group, `AppidOf` is Python's `int()` of the text before the first comma. */
  lemma AppidOfIsInt(raw: AttrValue)
    ensures AppidOf(raw) == ParseInt(BeforeComma(raw))
  {
    var t := BeforeComma(raw);
    assert forall i :: 0 <= i < |t| ==> t[i] == raw[i] && t[i] != ',';
    assert forall i :: 0 <= i < |t| ==> IsDigit(t[i]) && !IsSpace(t[i]);
    if t != [] {
      assert TrimLeft(t, IsSpace) == t;
      assert TrimRight(t, IsSpace) == t;
    }
  }

  /** The ids that parsed, in order, repeats included. */
  function Somes(opts: seq<Option<int>>): seq<int> {
    if opts == [] then []
    else
      Somes(opts[..|opts| - 1]) +
      (match opts[|opts| - 1] case Some(v) => [v] case None => [])
  }

  lemma {:induction false} SomesAppend(a: seq<Option<int>>, b: seq<Option<int>>)
    ensures Somes(a + b) == Somes(a) + Somes(b)
  {
    if b == [] {
      assert a + b == a;
    } else {
      SomesAppend(a, b[..|b| - 1]);
      assert (a + b)[..|a + b| - 1] == a + b[..|b| - 1];
    }
  }

  /** The candidate ids of the page, in order of the matches. */
  function PageIds(html: string): seq<int> {
    Somes(Map(FindAttrs(html, 0), AppidOf))
  }

  /** The loop stops as soon as `len(out) >= top_n`, which is after the first
      id when `top_n < 1`. */
  function Cap(topN: int): nat {
    if topN < 1 then 1 else topN
  }

  /** What `parse_top_appids(html, top_n)` returns. */
  function TopAppids(html: string, topN: int): seq<int> {
    Take(Dedup(PageIds(html)), Cap(topN))
  }

  /** Stopping once the ids of the first `k` groups fill the cap gives the capped whole. */
  lemma TopAppidsPrefix(opts: seq<Option<int>>, k: nat, cap: nat)
    requires k <= |opts|
    requires |Dedup(Somes(opts[..k]))| == cap || (k == |opts| && |Dedup(Somes(opts))| < cap)
    ensures Take(Dedup(Somes(opts)), cap) == Dedup(Somes(opts[..k]))
  {
    if k == |opts| && |Dedup(Somes(opts))| < cap {
      assert opts[..k] == opts;
    } else {
      var a, b := Somes(opts[..k]), Somes(opts[k..]);
      assert opts == opts[..k] + opts[k..];
      SomesAppend(opts[..k], opts[k..]);
      assert Somes(opts) == a + b;
      DedupPrefix(a, b);
      assert Dedup(a + b)[..|Dedup(a)|] == Dedup(a);
    }
  }

  lemma SomesStep(opts: seq<Option<int>>, i: nat)
    requires i < |opts|
    ensures Somes(opts[..i + 1]) == Somes(opts[..i]) + (if opts[i].Some? then [opts[i].value] else [])
  {
    assert opts[..i + 1] == opts[..i] + [opts[i]];
    SomesAppend(opts[..i], [opts[i]]);
    assert [opts[i]][..0] == [];
  }

  /** One step of the loop: a new id is appended, anything else is skipped. */
  lemma TopAppidsStep(opts: seq<Option<int>>, i: nat, out: seq<int>, seen: set<int>)
    requires i < |opts| && out == Dedup(Somes(opts[..i]))
    requires forall x :: x in seen <==> x in out
    ensures Dedup(Somes(opts[..i + 1])) ==
            if opts[i].Some? && opts[i].value !in seen then out + [opts[i].value] else out
  {
    var done := Somes(opts[..i]);
    SomesStep(opts, i);
    if opts[i].Some? {
      DedupSnoc(done, opts[i].value);
      DedupElements(done);
    } else {
      assert Somes(opts[..i + 1]) == done;
    }
  }

  /** `parse_top_appids`. */
  method ParseTopAppids(html: string, topN: int) returns (out: seq<int>)
    ensures out == TopAppids(html, topN)
  {
    var gs := FindAttrs(html, 0);
    ghost var opts := Map(gs, AppidOf);
    out := [];
    var seen: set<int> := {};
    var i, full := 0, false;
    while i < |gs| && !full
      invariant 0 <= i <= |gs|
      invariant out == Dedup(Somes(opts[..i]))
      invariant forall x :: x in seen <==> x in out
      invariant if full then |out| == Cap(topN) else |out| < Cap(topN)
    {
      var appid := AppidOf(gs[i]);
      assert appid == opts[i];
      TopAppidsStep(opts, i, out, seen);
      if appid.Some? && appid.value !in seen {
        seen := seen + {appid.value};
        out := out + [appid.value];
        full := |out| >= topN;
      }
      i := i + 1;
    }
    if !full {
      assert opts[..i] == opts;
    }
    TopAppidsPrefix(opts, i, Cap(topN));
  }

  /** The ids are distinct, non-negative, at most `top_n` of them (one when
      `top_n < 1`), each one read off a match, and in order of first appearance. */
  lemma TopAppidsFacts(html: string, topN: int)
    ensures var r, ids := TopAppids(html, topN), PageIds(html);
      Distinct(r) && |r| <= Cap(topN) && r == Dedup(ids)[..|r|] &&
      (forall x :: x in r ==> x in ids && x >= 0) &&
      (forall i, j :: 0 <= i < j < |r| ==> FirstIndex(ids, r[i]) < FirstIndex(ids, r[j]))
  {
    var gs := FindAttrs(html, 0);
    var ids := PageIds(html);
    var d := Dedup(ids);
    var r := TopAppids(html, topN);
    DedupDistinct(ids);
    DedupElements(ids);
    assert forall x :: x in r ==> x in d;
    SomesNonNegative(gs, Map(gs, AppidOf));
    forall i, j | 0 <= i < j < |r| ensures FirstIndex(ids, r[i]) < FirstIndex(ids, r[j]) {
      DedupFirstSeenOrder(ids, i, j);
    }
  }

  lemma {:induction false} SomesNonNegative(gs: seq<AttrValue>, opts: seq<Option<int>>)
    requires |opts| == |gs|
    requires forall i :: 0 <= i < |gs| ==> opts[i] == AppidOf(gs[i])
    ensures forall x :: x in Somes(opts) ==> x >= 0
  {
    if gs != [] {
      var n := |gs| - 1;
      SomesNonNegative(gs[..n], opts[..n]);
    }
  }

  // ---------------------------------------------------------------- fetching with retry

  /** What the server does with one request: the request fails (any exception
      of `requests`), or a JSON body comes back. */
  datatype Response = Failure | Payload(body: Json)

  /** The response to the request numbered `k`; past the end of the script every request fails. */
  function ResponseAt(script: seq<Response>, k: nat): (r: Response)
    ensures r.Payload? ==> k < |script|
  {
    if k < |script| then script[k] else Failure
  }

  /** One `fetch_reviews_page` call. */
  datatype Request = Request(cursor: Json, numPerPage: int, alreadyFetched: nat)

  const MAX_RETRY: nat := 3

  function Pow2(k: nat): nat {
    if k == 0 then 1 else 2 * Pow2(k - 1)
  }

  /** `time.sleep(2 ** attempt)` after the failed attempt `attempt`. */
  function Backoff(attempt: nat): real {
    Pow2(attempt) as real
  }

  /** How many requests one page costs and what it yields, starting at request
      `pos`: the first of at most three attempts that gets a body; `None` when
      all three fail and the last failure is re-raised. */
  function Attempts(script: seq<Response>, pos: nat): (nat, Option<Json>) {
    if ResponseAt(script, pos).Payload? then (1, Some(ResponseAt(script, pos).body))
    else if ResponseAt(script, pos + 1).Payload? then (2, Some(ResponseAt(script, pos + 1).body))
    else if ResponseAt(script, pos + 2).Payload? then (3, Some(ResponseAt(script, pos + 2).body))
    else (3, None)
  }

  /** The retry loop of `crawl_one_game_en`: the same request is sent until a
      body comes back, at most `MAX_RETRY` times, sleeping 1 s and then 2 s
      between attempts. `next` is the number of the next request. */
  method FetchWithRetry(script: seq<Response>, pos: nat, req: Request)
    returns (payload: Option<Json>, next: nat, reqs: seq<Request>, naps: seq<real>)
    ensures pos < next <= pos + MAX_RETRY
    ensures (next - pos, payload) == Attempts(script, pos)
    ensures |reqs| == next - pos && forall k :: 0 <= k < |reqs| ==> reqs[k] == req
    ensures |naps| == next - pos - 1 && forall k :: 0 <= k < |naps| ==> naps[k] == Backoff(k)
    ensures payload.Some? ==> next <= |script|
  {
    payload, next, reqs, naps := None, pos, [], [];
    for attempt := 0 to MAX_RETRY
      invariant next == pos + attempt && payload.None?
      invariant forall k :: pos <= k < next ==> ResponseAt(script, k).Failure?
      invariant |reqs| == attempt && forall k :: 0 <= k < |reqs| ==> reqs[k] == req
      invariant |naps| == (if attempt < MAX_RETRY then attempt else MAX_RETRY - 1)
      invariant forall k :: 0 <= k < |naps| ==> naps[k] == Backoff(k)
    {
      var r := ResponseAt(script, next);
      reqs := reqs + [req];
      next := next + 1;
      if r.Payload? {
        payload := Some(r.body);
        return;
      }
      if attempt < MAX_RETRY - 1 {
        naps := naps + [Backoff(attempt)];
      }
    }
  }

  // ---------------------------------------------------------------- one game

  /** The statistics `crawl_one_game_en` writes and returns. */
  datatype GameStats = GameStats(appid: int, pagesFetched: nat, reviewsFetched: nat, distribution: Counter<string>)

  function Min(a: int, b: int): int { if a <= b then a else b }

  /** A request asks for the reviews still missing, capped at the page size. */
  predicate RequestOk(rq: Request, numPerPage: int, maxReviews: int) {
    rq.alreadyFetched < maxReviews && rq.numPerPage == Min(numPerPage, maxReviews - rq.alreadyFetched)
  }

  /** What one review item does to the page loop. */
  datatype Step = Raised | Skipped | Appended

  /** One review item, given the lines written so far: an item that is not
      an object raises; an empty or already seen id is skipped; otherwise the
      normalised review is appended, or the normalisation raises. */
  function FeedItem(appid: int, env: Env, lines: seq<NormReview>, rv: Json): (Step, seq<NormReview>) {
    if !rv.Obj? then (Raised, lines)
    else
      var rid := ReviewId(Member(rv.members, "recommendationid"), env);
      if rid == [] || rid in Ids(lines) then (Skipped, lines)
      else
        match NormalizeReview(appid, rv.members, env)
        case None => (Raised, lines)
        case Some(r) => (Appended, lines + [r])
  }

  /** An appended review carries an id not seen before, so one item keeps
      the lines well formed. */
  lemma FeedItemGood(appid: int, env: Env, lines: seq<NormReview>, rv: Json)
    requires GoodLines(lines)
    ensures var (step, g) := FeedItem(appid, env, lines, rv);
      GoodLines(g) && (step == Appended ==> IdOf(g[|lines|]) != "" && IdOf(g[|lines|]) !in Ids(lines))
  {
    var (step, g) := FeedItem(appid, env, lines, rv);
    FeedItemAppends(appid, env, lines, rv);
    if step == Appended {
      LinesSnoc(lines, g[|lines|]);
      assert g == lines + [g[|lines|]];
    }
  }

  /** One item appends at most its own normalisation. */
  lemma FeedItemAppends(appid: int, env: Env, lines: seq<NormReview>, rv: Json)
    ensures var (step, g) := FeedItem(appid, env, lines, rv);
      (step != Appended ==> g == lines) &&
      (step == Appended ==>
         rv.Obj? && |g| == |lines| + 1 && g[..|lines|] == lines &&
         NormalizeReview(appid, rv.members, env) == Some(g[|lines|]))
  {
    var (step, g) := FeedItem(appid, env, lines, rv);
    if step == Appended {
      assert g == lines + [g[|lines|]];
    }
  }

  /** The outcome of the review loop of one page. */
  datatype Feed = Feed(raised: bool, lines: seq<NormReview>)

  /** The review loop of one page over `items`, in order, starting from
      `lines0`: it stops at the first item that raises, and once the lines
      reach `maxReviews`. */
  function FeedPage(appid: int, env: Env, maxReviews: int, lines0: seq<NormReview>, items: seq<Json>): Feed {
    if items == [] then Feed(false, lines0)
    else
      var f := FeedPage(appid, env, maxReviews, lines0, items[..|items| - 1]);
      if f.raised || |f.lines| >= maxReviews then f
      else
        var (step, lines) := FeedItem(appid, env, f.lines, items[|items| - 1]);
        Feed(step == Raised, lines)
  }

  /** Once the loop has stopped, later items change nothing. */
  lemma {:induction false} FeedPageStopped(appid: int, env: Env, maxReviews: int, lines0: seq<NormReview>,
                                           items: seq<Json>, k: nat)
    requires k <= |items|
    requires var f := FeedPage(appid, env, maxReviews, lines0, items[..k]); f.raised || |f.lines| >= maxReviews
    ensures FeedPage(appid, env, maxReviews, lines0, items) == FeedPage(appid, env, maxReviews, lines0, items[..k])
    decreases |items| - k
  {
    if k < |items| {
      var init := items[..|items| - 1];
      assert init[..k] == items[..k];
      FeedPageStopped(appid, env, maxReviews, lines0, init, k);
    } else {
      assert items[..k] == items;
    }
  }

  /** The loop keeps the lines well formed and under the cap, and only appends. */
  lemma {:induction false} FeedPageGood(appid: int, env: Env, maxReviews: int, lines0: seq<NormReview>,
                                        items: seq<Json>)
    requires GoodLines(lines0) && |lines0| < maxReviews
    ensures var f := FeedPage(appid, env, maxReviews, lines0, items);
      GoodLines(f.lines) && |lines0| <= |f.lines| <= maxReviews && f.lines[..|lines0|] == lines0
  {
    if items != [] {
      var init := items[..|items| - 1];
      FeedPageGood(appid, env, maxReviews, lines0, init);
      var f := FeedPage(appid, env, maxReviews, lines0, init);
      if !f.raised && |f.lines| < maxReviews {
        FeedItemGood(appid, env, f.lines, items[|items| - 1]);
        FeedItemAppends(appid, env, f.lines, items[|items| - 1]);
        var g := FeedItem(appid, env, f.lines, items[|items| - 1]).1;
        assert g[..|lines0|] == g[..|f.lines|][..|lines0|];
      }
    }
  }

  /** Every line the loop appends is the normalisation of one of the page's
      object items. */
  lemma {:induction false} FeedPageSources(appid: int, env: Env, maxReviews: int, lines0: seq<NormReview>,
                                           items: seq<Json>)
    ensures var f := FeedPage(appid, env, maxReviews, lines0, items);
      |lines0| <= |f.lines| && f.lines[..|lines0|] == lines0 &&
      forall k :: |lines0| <= k < |f.lines| ==>
        exists j :: 0 <= j < |items| && items[j].Obj? && NormalizeReview(appid, items[j].members, env) == Some(f.lines[k])
  {
    if items != [] {
      var init := items[..|items| - 1];
      var rv := items[|items| - 1];
      FeedPageSources(appid, env, maxReviews, lines0, init);
      var f := FeedPage(appid, env, maxReviews, lines0, init);
      assert forall j :: 0 <= j < |init| ==> items[j] == init[j];
      if !f.raised && |f.lines| < maxReviews {
        FeedItemAppends(appid, env, f.lines, rv);
        var g := FeedItem(appid, env, f.lines, rv).1;
        if |g| > |f.lines| {
          assert g[..|lines0|] == g[..|f.lines|][..|lines0|];
          assert forall k :: |lines0| <= k < |f.lines| ==> g[k] == g[..|f.lines|][k];
        }
      }
    }
  }

  /** The body of the review loop for one item, keeping the `seen_ids` set
      and the label counter beside the lines. */
  method RecordItem(appid: int, rv: Json, env: Env,
                    lines0: seq<NormReview>, seen0: set<string>, counter0: Counter<string>)
    returns (step: Step, lines: seq<NormReview>, seen: set<string>, counter: Counter<string>)
    requires GoodLines(lines0) && counter0 == LabelCounter(lines0) && seen0 == Ids(lines0)
    ensures (step, lines) == FeedItem(appid, env, lines0, rv)
    ensures GoodLines(lines) && counter == LabelCounter(lines)
    ensures step != Raised ==> seen == Ids(lines)
    ensures |lines0| <= |lines| <= |lines0| + 1 && lines[..|lines0|] == lines0
  {
    step, lines, seen, counter := Raised, lines0, seen0, counter0;
    if !rv.Obj? {
      return;
    }
    var rid := ReviewId(Member(rv.members, "recommendationid"), env);
    if rid == [] || rid in seen {
      step := Skipped;
      return;
    }
    seen := seen + {rid};
    var norm := NormalizeReview(appid, rv.members, env);
    if norm.None? {
      return;
    }
    var r := norm.value;
    LinesSnoc(lines, r);
    lines := lines + [r];
    counter := Add(counter, LabelOf(r), 1);
    step := Appended;
  }

  /** The review loop of one page; `raised` when an item raises. */
  method RecordPage(appid: int, items: seq<Json>, maxReviews: int, env: Env,
                    lines0: seq<NormReview>, seen0: set<string>, counter0: Counter<string>)
    returns (raised: bool, lines: seq<NormReview>, seen: set<string>, counter: Counter<string>)
    requires GoodLines(lines0) && counter0 == LabelCounter(lines0) && seen0 == Ids(lines0)
    requires |lines0| < maxReviews
    ensures Feed(raised, lines) == FeedPage(appid, env, maxReviews, lines0, items)
    ensures GoodLines(lines) && counter == LabelCounter(lines)
    ensures !raised ==> seen == Ids(lines)
    ensures |lines0| <= |lines| <= maxReviews
  {
    raised, lines, seen, counter := false, lines0, seen0, counter0;
    for i := 0 to |items|
      invariant FeedPage(appid, env, maxReviews, lines0, items[..i]) == Feed(false, lines)
      invariant GoodLines(lines) && counter == LabelCounter(lines) && seen == Ids(lines)
      invariant |lines0| <= |lines| < maxReviews
    {
      assert items[..i + 1][..i] == items[..i];
      var step;
      step, lines, seen, counter := RecordItem(appid, items[i], env, lines, seen, counter);
      if step == Raised || |lines| >= maxReviews {
        raised := step == Raised;
        FeedPageStopped(appid, env, maxReviews, lines0, items, i + 1);
        return;
      }
    }
    assert items[..|items|] == items;
  }

  /** What a saved (truthy) page leads to. */
  datatype PageAction = Done | Raise | Reviews(cursor: Json, items: seq<Json>)

  /** The checks on a saved page, in the crawler's order: the body must be an
      object; a falsy or already seen `cursor` ends the crawl, a list or dict
      one raises; a falsy `reviews` ends the crawl, one that is not a list
      raises. */
  function PageActionOf(body: Json, seenCursors: set<Json>): (a: PageAction)
    ensures !body.Obj? ==> a == Raise
    ensures body.Obj? ==>
      var c, rs := Member(body.members, "cursor"), Member(body.members, "reviews");
      (a == Raise <==> Truthy(c) && (!Hashable(c) || (c !in seenCursors && Truthy(rs) && !rs.Arr?))) &&
      (a.Reviews? <==> Truthy(c) && Hashable(c) && c !in seenCursors && Truthy(rs) && rs.Arr?) &&
      (a.Reviews? ==> a.cursor == c && a.items == rs.items)
  {
    if !body.Obj? then Raise
    else
      var c := Member(body.members, "cursor");
      if !Truthy(c) then Done
      else if !Hashable(c) then Raise
      else if c in seenCursors then Done
      else
        var rs := Member(body.members, "reviews");
        if !Truthy(rs) then Done
        else if !rs.Arr? then Raise
        else Reviews(c, rs.items)
  }

  /** The variables of the crawler's page loop. */
  datatype Crawl = Crawl(pos: nat, cursor: Json, seenCursors: set<Json>, pages: nat,
                         lines: seq<NormReview>, seenIds: set<string>, counter: Counter<string>,
                         rawPages: seq<(nat, Json)>, requests: seq<Request>, sleeps: seq<real>)

  /** Before the first page: cursor `"*"`, nothing seen, nothing written. */
  const START: Crawl := Crawl(0, Str("*"), {}, 0, [], {}, [], [], [], [])

  /** What holds of the loop variables however the loop ends: the lines are
      well formed, counted and within the cap; the raw pages are numbered
      from 1 and not empty; every page took one to three requests, each
      asking for what was still missing; the first request used cursor `"*"`. */
  predicate CrawlOk(c: Crawl, numPerPage: int, maxReviews: int) {
    GoodLines(c.lines) && c.counter == LabelCounter(c.lines) &&
    (c.lines == [] || |c.lines| <= maxReviews) &&
    (forall i :: 0 <= i < |c.rawPages| ==> c.rawPages[i].0 == i + 1 && Truthy(c.rawPages[i].1)) &&
    |c.rawPages| <= c.pages <= |c.requests| <= MAX_RETRY * c.pages &&
    (forall i :: 0 <= i < |c.requests| ==> RequestOk(c.requests[i], numPerPage, maxReviews)) &&
    (forall i :: 0 <= i < |c.requests| ==> c.requests[i].alreadyFetched <= |c.lines|) &&
    (c.requests != [] ==> c.requests[0].cursor == Str("*")) &&
    (c.requests == [] ==> c.cursor == Str("*"))
  }

  /** How one turn of the page loop ends. */
  datatype Outcome = Continue | Stop | Crash

  // ---------------------------------------------------------------- the crawl as a function of the server

  /** The arguments of one game's crawl, and the server it talks to. */
  datatype Game = Game(appid: int, maxReviews: int, delay: real, numPerPage: int,
                       script: seq<Response>, env: Env)

  /** The loop variables that make up what a crawl leaves behind (the
      `seen_ids` set and the label counter follow from `lines`). */
  datatype Loop = Loop(pos: nat, cursor: Json, seenCursors: set<Json>, pages: nat,
                       lines: seq<NormReview>, rawPages: seq<(nat, Json)>,
                       requests: seq<Request>, sleeps: seq<real>)

  function View(c: Crawl): Loop {
    Loop(c.pos, c.cursor, c.seenCursors, c.pages, c.lines, c.rawPages, c.requests, c.sleeps)
  }

  /** `n` attempts of the same request. */
  function Repeat(req: Request, n: nat): (r: seq<Request>)
    ensures |r| == n && forall k :: 0 <= k < n ==> r[k] == req
  {
    if n == 0 then [] else Repeat(req, n - 1) + [req]
  }

  /** The waits of a page that took `n` attempts: `2 ** k` seconds after the
      failed attempt `k`, none after the last attempt. */
  function Naps(n: nat): (r: seq<real>)
    ensures |r| == (if n == 0 then 0 else n - 1)
    ensures forall k :: 0 <= k < |r| ==> r[k] == Backoff(k)
  {
    if n <= 1 then [] else Naps(n - 1) + [Backoff(n - 2)]
  }

  /** The start of a turn: the page is counted and fetched with up to three
      attempts, each asking with the current cursor for the reviews still
      missing (at most a page). */
  function FetchOf(g: Game, l: Loop): (Option<Json>, Loop) {
    var (n, payload) := Attempts(g.script, l.pos);
    var req := Request(l.cursor, Min(g.numPerPage, g.maxReviews - |l.lines|), |l.lines|);
    (payload, l.(pos := l.pos + n, pages := l.pages + 1, requests := l.requests + Repeat(req, n),
                 sleeps := l.sleeps + Naps(n)))
  }

  /** The rest of a turn on the body fetched: a falsy body stops the crawl;
      any other body is saved as the raw page of this turn, then checked;
      the reviews of a page with a fresh cursor are fed to the review loop. */
  function HandleOf(g: Game, body: Json, l: Loop): (r: (Outcome, Loop))
    ensures r.1.pos == l.pos && r.1.pages == l.pages
  {
    if !Truthy(body) then (Stop, l)
    else
      var saved := l.(rawPages := l.rawPages + [(l.pages, body)]);
      match PageActionOf(body, l.seenCursors)
      case Raise => (Crash, saved)
      case Done => (Stop, saved)
      case Reviews(cur, items) =>
        var f := FeedPage(g.appid, g.env, g.maxReviews, l.lines, items);
        var next := saved.(seenCursors := l.seenCursors + {cur}, cursor := cur, lines := f.lines);
        if f.raised then (Crash, next)
        else (Continue, next.(sleeps := if g.delay > 0.0 then l.sleeps + [g.delay] else l.sleeps))
  }

  /** One turn of the page loop: fetch, then handle; three failed attempts crash. */
  function TurnOf(g: Game, l: Loop): (r: (Outcome, Loop))
    ensures l.pos < r.1.pos && r.1.pages == l.pages + 1
    ensures r.0 != Crash ==> r.1.pos <= |g.script|
  {
    var (payload, m) := FetchOf(g, l);
    if payload.None? then (Crash, m) else HandleOf(g, payload.value, m)
  }

  /** The page loop from `l` on: turns until the cap is reached, a turn stops
      the crawl, or a turn crashes (`true` in the second component). */
  function RunFrom(g: Game, l: Loop): (Loop, bool)
    requires l.pos <= |g.script|
    decreases |g.script| - l.pos
  {
    if |l.lines| >= g.maxReviews then (l, false)
    else
      var (out, n) := TurnOf(g, l);
      if out == Crash then (n, true)
      else if out == Stop then (n, false)
      else RunFrom(g, n)
  }

  /** Before the first page. */
  const LOOP_START: Loop := Loop(0, Str("*"), {}, 0, [], [], [], [])

  /** What one game's crawl leaves: the statistics (`None` when it raises),
      the JSONL lines, the raw pages, the requests and the waits. */
  datatype CrawlResult = CrawlResult(stats: Option<GameStats>, lines: seq<NormReview>,
                                     rawPages: seq<(nat, Json)>, requests: seq<Request>,
                                     sleeps: seq<real>)

  /** `crawl_one_game_en` as a function of the server's responses. */
  function CrawlOf(g: Game): CrawlResult {
    var (l, crashed) := RunFrom(g, LOOP_START);
    CrawlResult(if crashed then None else Some(GameStats(g.appid, l.pages, |l.lines|, LabelCounter(l.lines))),
                l.lines, l.rawPages, l.requests, l.sleeps)
  }

  /** How a turn ends, read off the server's response: with no body after
      three attempts, a crash; with a falsy body, a stop and nothing saved;
      with any other body, the body is saved as raw page number `pages`
      before its cursor is looked at, and then the crawl stops on a missing
      or already seen cursor or on an empty `reviews`, crashes on a body that
      is not an object, a list or dict cursor, a `reviews` that is not a
      list, or a review item that cannot be read, and goes on otherwise. */
  lemma TurnOutcome(g: Game, l: Loop)
    ensures var (out, n) := TurnOf(g, l);
      var p := Attempts(g.script, l.pos).1;
      (p.None? ==> out == Crash && n.rawPages == l.rawPages) &&
      (p.Some? && !Truthy(p.value) ==> out == Stop && n.rawPages == l.rawPages) &&
      (p.Some? && Truthy(p.value) ==>
         var b := p.value;
         n.rawPages == l.rawPages + [(l.pages + 1, b)] &&
         (!b.Obj? ==> out == Crash) &&
         (b.Obj? ==>
            var cur, rs := Member(b.members, "cursor"), Member(b.members, "reviews");
            (out == Stop <==> !Truthy(cur) || (Hashable(cur) && (cur in l.seenCursors || !Truthy(rs)))) &&
            (out == Continue <==>
               Truthy(cur) && Hashable(cur) && cur !in l.seenCursors && Truthy(rs) && rs.Arr? &&
               !FeedPage(g.appid, g.env, g.maxReviews, l.lines, rs.items).raised)))
  {
  }

  /** A turn that goes on moves to the page's fresh cursor, remembers it,
      and leaves the lines the review loop made of the page's reviews. */
  lemma TurnContinues(g: Game, l: Loop)
    requires TurnOf(g, l).0 == Continue
    ensures var n := TurnOf(g, l).1;
      var b := Attempts(g.script, l.pos).1.value;
      var cur, rs := Member(b.members, "cursor"), Member(b.members, "reviews");
      b.Obj? && cur !in l.seenCursors && n.cursor == cur && n.seenCursors == l.seenCursors + {cur} &&
      rs.Arr? && rs.items != [] && n.lines == FeedPage(g.appid, g.env, g.maxReviews, l.lines, rs.items).lines
  {
  }

  /** The id `str(rv.get("recommendationid") or "")` of a review item. */
  function ItemId(rv: Json, env: Env): string
    requires rv.Obj?
  {
    ReviewId(Member(rv.members, "recommendationid"), env)
  }

  /** Every review item of a saved page that is an object with a non-empty
      id has that id among the lines. */
  predicate PageRecorded(body: Json, lines: seq<NormReview>, env: Env) {
    body.Obj? && Member(body.members, "reviews").Arr? ==>
      forall rv :: rv in Member(body.members, "reviews").items && rv.Obj? && ItemId(rv, env) != "" ==>
        ItemId(rv, env) in Ids(lines)
  }

  lemma IdsSnoc(lines: seq<NormReview>, r: NormReview)
    ensures Ids(lines + [r]) == Ids(lines) + {IdOf(r)}
  {
    assert (lines + [r])[..|lines|] == lines;
  }

  /** The review loop of a page keeps the ids seen before it, and when it
      neither raises nor reaches the cap, every object item of the page with
      a non-empty id ends up among the lines: it was seen before, or it was
      appended. */
  lemma {:induction false} FeedPageComplete(appid: int, env: Env, maxReviews: int, lines0: seq<NormReview>,
                                            items: seq<Json>)
    ensures var f := FeedPage(appid, env, maxReviews, lines0, items);
      Ids(lines0) <= Ids(f.lines) &&
      (!f.raised && |f.lines| < maxReviews ==>
         forall rv :: rv in items && rv.Obj? && ItemId(rv, env) != "" ==> ItemId(rv, env) in Ids(f.lines))
  {
    if items != [] {
      var init, rv := items[..|items| - 1], items[|items| - 1];
      assert items == init + [rv];
      FeedPageComplete(appid, env, maxReviews, lines0, init);
      var f := FeedPage(appid, env, maxReviews, lines0, init);
      if !f.raised && |f.lines| < maxReviews {
        var (step, lines) := FeedItem(appid, env, f.lines, rv);
        FeedItemAppends(appid, env, f.lines, rv);
        if step == Appended {
          IdsSnoc(f.lines, lines[|f.lines|]);
          assert lines == f.lines + [lines[|f.lines|]];
        }
      }
    }
  }

  /** The loop from a state whose saved pages are all recorded: if it ends
      without a crash and below the cap, every saved page but the last is
      recorded (the last one may be the page whose cursor stopped the crawl). */
  lemma {:induction false} RunFromComplete(g: Game, l: Loop)
    requires l.pos <= |g.script|
    requires forall i :: 0 <= i < |l.rawPages| ==> PageRecorded(l.rawPages[i].1, l.lines, g.env)
    ensures var (e, crashed) := RunFrom(g, l);
      !crashed && |e.lines| < g.maxReviews ==>
        forall i :: 0 <= i < |e.rawPages| - 1 ==> PageRecorded(e.rawPages[i].1, e.lines, g.env)
    decreases |g.script| - l.pos
  {
    if |l.lines| < g.maxReviews {
      var (out, n) := TurnOf(g, l);
      TurnOutcome(g, l);
      if out == Continue {
        TurnContinues(g, l);
        var b := Attempts(g.script, l.pos).1.value;
        var rs := Member(b.members, "reviews");
        FeedPageComplete(g.appid, g.env, g.maxReviews, l.lines, rs.items);
        if |n.lines| < g.maxReviews {
          assert n.rawPages == l.rawPages + [(l.pages + 1, b)];
          forall i | 0 <= i < |n.rawPages| ensures PageRecorded(n.rawPages[i].1, n.lines, g.env) {
            if i < |l.rawPages| {
              assert n.rawPages[i] == l.rawPages[i];
            }
          }
          RunFromComplete(g, n);
        }
      }
    }
  }

  /** A crawl that ends normally below the cap has recorded every review of
      every page it read: every review item of every saved page but the last
      that is an object with a non-empty id is among its lines. */
  lemma CrawlComplete(g: Game)
    ensures var r := CrawlOf(g);
      r.stats.Some? && |r.lines| < g.maxReviews ==>
        forall i :: 0 <= i < |r.rawPages| - 1 ==> PageRecorded(r.rawPages[i].1, r.lines, g.env)
  {
    RunFromComplete(g, LOOP_START);
  }

  /** The loop keeps the lines free of empty and repeated ids and, once it
      has appended something, within the cap. */
  lemma {:induction false} RunFromGood(g: Game, l: Loop)
    requires l.pos <= |g.script| && GoodLines(l.lines) && (l.lines == [] || |l.lines| <= g.maxReviews)
    ensures var e := RunFrom(g, l).0;
      GoodLines(e.lines) && (e.lines == [] || |e.lines| <= g.maxReviews)
    decreases |g.script| - l.pos
  {
    if |l.lines| < g.maxReviews {
      var (out, n) := TurnOf(g, l);
      TurnOutcome(g, l);
      var p := Attempts(g.script, l.pos).1;
      if p.Some? && Truthy(p.value) && p.value.Obj? {
        var rs := Member(p.value.members, "reviews");
        if rs.Arr? {
          FeedPageGood(g.appid, g.env, g.maxReviews, l.lines, rs.items);
        }
      }
      if out == Continue {
        RunFromGood(g, n);
      }
    }
  }

  /** A crawl's lines have distinct non-empty ids, never more than the cap,
      and its statistics count them. */
  lemma CrawlGood(g: Game)
    ensures var r := CrawlOf(g);
      GoodLines(r.lines) && (r.lines == [] || |r.lines| <= g.maxReviews) &&
      (r.stats.Some? ==>
         var st := r.stats.value;
         st.appid == g.appid && st.reviewsFetched == |r.lines| && st.distribution == LabelCounter(r.lines))
  {
    RunFromGood(g, LOOP_START);
  }

  /** The start of a turn: count the page and fetch it with retries. */
  method FetchPage(g: Game, c: Crawl) returns (payload: Option<Json>, d: Crawl)
    requires CrawlOk(c, g.numPerPage, g.maxReviews) && |c.rawPages| == c.pages && |c.lines| < g.maxReviews
    ensures (payload, View(d)) == FetchOf(g, View(c))
    ensures CrawlOk(d, g.numPerPage, g.maxReviews) && |d.rawPages| + 1 == d.pages == c.pages + 1
    ensures d == c.(pos := d.pos, pages := d.pages, requests := d.requests, sleeps := d.sleeps)
    ensures c.pos < d.pos && (payload.Some? ==> d.pos <= |g.script|)
  {
    var req := Request(c.cursor, Min(g.numPerPage, g.maxReviews - |c.lines|), |c.lines|);
    var reqs, naps;
    var next;
    payload, next, reqs, naps := FetchWithRetry(g.script, c.pos, req);
    assert reqs == Repeat(req, next - c.pos) && naps == Naps(next - c.pos);
    d := c.(pos := next, pages := c.pages + 1, requests := c.requests + reqs, sleeps := c.sleeps + naps);
    FetchKeepsOk(c, d, req, next - c.pos, g.numPerPage, g.maxReviews);
    ghost var l := View(c);
    assert FetchOf(g, l) == (payload, l.(pos := next, pages := l.pages + 1, requests := l.requests + reqs,
                                         sleeps := l.sleeps + naps));
  }

  /** Counting a page and adding its attempts, each with the request the
      loop builds, keeps `CrawlOk`. */
  lemma FetchKeepsOk(c: Crawl, d: Crawl, req: Request, n: nat, numPerPage: int, maxReviews: int)
    requires CrawlOk(c, numPerPage, maxReviews) && |c.rawPages| == c.pages && |c.lines| < maxReviews
    requires req == Request(c.cursor, Min(numPerPage, maxReviews - |c.lines|), |c.lines|)
    requires 1 <= n <= MAX_RETRY
    requires d == c.(pos := d.pos, pages := c.pages + 1, requests := c.requests + Repeat(req, n), sleeps := d.sleeps)
    ensures CrawlOk(d, numPerPage, maxReviews)
  {
    assert RequestOk(req, numPerPage, maxReviews);
    forall i | 0 <= i < |d.requests|
      ensures RequestOk(d.requests[i], numPerPage, maxReviews) && d.requests[i].alreadyFetched <= |d.lines|
    {
      if i >= |c.requests| {
        assert d.requests[i] == req;
      }
    }
  }

  /** The rest of a turn, on the body fetched: a falsy body ends the crawl;
      otherwise the page is saved, checked, and its reviews recorded. */
  method HandlePage(g: Game, body: Json, c: Crawl) returns (out: Outcome, d: Crawl)
    requires CrawlOk(c, g.numPerPage, g.maxReviews) && |c.rawPages| + 1 == c.pages
    requires c.requests != [] && c.seenIds == Ids(c.lines) && |c.lines| < g.maxReviews
    ensures (out, View(d)) == HandleOf(g, body, View(c))
    ensures CrawlOk(d, g.numPerPage, g.maxReviews) && d.pos == c.pos && d.pages == c.pages
    ensures out == Stop ==> d.pages <= |d.rawPages| + 1
    ensures out == Continue ==> |d.rawPages| == d.pages && d.seenIds == Ids(d.lines)
  {
    d := c;
    if !Truthy(body) {
      return Stop, d;
    }
    d := d.(rawPages := d.rawPages + [(d.pages, body)]);
    ghost var saved := View(d);
    var action := PageActionOf(body, d.seenCursors);
    if action.Raise? {
      assert HandleOf(g, body, View(c)) == (Crash, saved);
      return Crash, d;
    }
    if action.Done? {
      assert HandleOf(g, body, View(c)) == (Stop, saved);
      return Stop, d;
    }
    d := d.(seenCursors := d.seenCursors + {action.cursor}, cursor := action.cursor);
    var raised, lines, seenIds, counter :=
      RecordPage(g.appid, action.items, g.maxReviews, g.env, d.lines, d.seenIds, d.counter);
    ghost var next := saved.(seenCursors := c.seenCursors + {action.cursor}, cursor := action.cursor, lines := lines);
    d := d.(lines := lines, seenIds := seenIds, counter := counter);
    assert View(d) == next;
    if raised {
      assert HandleOf(g, body, View(c)) == (Crash, next);
      return Crash, d;
    }
    if g.delay > 0.0 {
      d := d.(sleeps := d.sleeps + [g.delay]);
    }
    assert HandleOf(g, body, View(c)) == (Continue, View(d));
    out := Continue;
  }

  /** `crawl_one_game_en` against a scripted server: what it leaves is
      `CrawlOf` of its arguments. `stats` is `None` where the crawl raises:
      three failed attempts for one page, a body that is not an object, a
      list or dict cursor, a `reviews` value that is not a list, or a review
      item that cannot be read. `lines` is the JSONL file (written even when
      the crawl raises later), `rawPages` the raw pages saved, `requests` and
      `sleeps` the calls made and the waits; the CSV is written from the
      JSONL file when the crawl ends normally. */
  method CrawlOneGame(appid: int, maxReviews: int, delay: real, numPerPage: int,
                      script: seq<Response>, env: Env)
    returns (stats: Option<GameStats>, lines: seq<NormReview>, rawPages: seq<(nat, Json)>,
             requests: seq<Request>, sleeps: seq<real>, csv: Option<Csv>)
    ensures CrawlResult(stats, lines, rawPages, requests, sleeps) ==
            CrawlOf(Game(appid, maxReviews, delay, numPerPage, script, env))
    ensures GoodLines(lines)
    ensures lines == [] || |lines| <= maxReviews
    ensures forall i :: 0 <= i < |rawPages| ==> rawPages[i].0 == i + 1 && Truthy(rawPages[i].1)
    ensures forall i :: 0 <= i < |requests| ==>
              RequestOk(requests[i], numPerPage, maxReviews) && requests[i].alreadyFetched <= |lines|
    ensures requests != [] ==> requests[0].cursor == Str("*")
    ensures stats.Some? ==>
              stats.value.appid == appid && stats.value.reviewsFetched == |lines| &&
              stats.value.distribution == LabelCounter(lines) &&
              |rawPages| <= stats.value.pagesFetched <= |rawPages| + 1 &&
              stats.value.pagesFetched <= |requests| <= MAX_RETRY * stats.value.pagesFetched
    ensures stats.Some? <==> csv.Some?
    ensures csv.Some? ==> csv.value == CsvOf(JsonlFile(lines))
    ensures maxReviews <= 0 ==> stats == Some(GameStats(appid, 0, 0, [])) && requests == []
  {
    var g := Game(appid, maxReviews, delay, numPerPage, script, env);
    var c, crashed := PageLoop(g);
    lines, rawPages, requests, sleeps := c.lines, c.rawPages, c.requests, c.sleeps;
    if crashed {
      return None, lines, rawPages, requests, sleeps, None;
    }
    var file := WriteCsvFromJsonl(JsonlFile(lines));
    csv := Some(file);
    stats := Some(GameStats(appid, c.pages, |lines|, c.counter));
  }

  /** The page loop of `crawl_one_game_en`: turns until the cap is reached,
      a turn stops the crawl, or a turn raises (`crashed`). */
  method PageLoop(g: Game) returns (c: Crawl, crashed: bool)
    ensures (View(c), crashed) == RunFrom(g, LOOP_START)
    ensures CrawlOk(c, g.numPerPage, g.maxReviews)
    ensures !crashed ==> c.pages <= |c.rawPages| + 1
    ensures g.maxReviews <= 0 ==> c == START && !crashed
  {
    c, crashed := START, false;
    assert View(START) == LOOP_START;
    while |c.lines| < g.maxReviews
      invariant CrawlOk(c, g.numPerPage, g.maxReviews) && c.pos <= |g.script|
      invariant |c.rawPages| == c.pages && c.seenIds == Ids(c.lines)
      invariant RunFrom(g, View(c)) == RunFrom(g, LOOP_START)
      invariant g.maxReviews <= 0 ==> c == START
      decreases |g.script| - c.pos
    {
      ghost var l := View(c);
      var payload;
      payload, c := FetchPage(g, c);
      if payload.None? {
        return c, true;
      }
      var out;
      out, c := HandlePage(g, payload.value, c);
      assert (out, View(c)) == TurnOf(g, l);
      if out == Crash {
        return c, true;
      }
      if out == Stop {
        return c, false;
      }
    }
  }

  /** The game's JSONL file as `write_csv_from_jsonl` reads it back: absent
      when no review was appended. */
  function JsonlFile(lines: seq<NormReview>): Option<seq<Record>> {
    if lines == [] then None else Some(Records(lines))
  }

  /** One record per line, in order: `append_jsonl` once per review. */
  function Records(lines: seq<NormReview>): seq<Record> {
    if lines == [] then [] else Records(lines[..|lines| - 1]) + [ToRecord(lines[|lines| - 1])]
  }

  lemma {:induction false} RecordsAt(lines: seq<NormReview>)
    ensures |Records(lines)| == |lines|
    ensures forall i :: 0 <= i < |lines| ==> Records(lines)[i] == ToRecord(lines[i])
  {
    if lines != [] {
      var init := lines[..|lines| - 1];
      RecordsAt(init);
      assert forall i :: 0 <= i < |init| ==> lines[i] == init[i];
    }
  }

  /** A game's CSV has exactly the review fields as columns, one row per line
      of its JSONL file; without reviews it is the default header alone. */
  lemma GameCsvShape(lines: seq<NormReview>)
    ensures var csv := CsvOf(JsonlFile(lines));
      (lines == [] ==> csv == Csv(DEFAULT_HEADER, [])) &&
      (lines != [] ==>
         csv.header == REVIEW_KEYS && |csv.rows| == |lines| &&
         forall i :: 0 <= i < |lines| ==> csv.rows[i] == CsvRow(ToRecord(lines[i]), REVIEW_KEYS))
  {
    if lines != [] {
      var rows := Records(lines);
      RecordsAt(lines);
      ReviewCsvHeader(rows);
      GameCsvRows(rows);
    }
  }

  lemma GameCsvRows(rows: seq<Record>)
    requires rows != [] && CsvOf(Some(rows)).header == REVIEW_KEYS
    ensures var csv := CsvOf(Some(rows));
      |csv.rows| == |rows| && forall i :: 0 <= i < |rows| ==> csv.rows[i] == CsvRow(rows[i], REVIEW_KEYS)
  {
  }

  // ---------------------------------------------------------------- the batch

  /** `v.get(k1).get(k2)...` along `path`, with `Null` for a missing key,
      read as a name: the stripped text of a string that is not blank.
      `None` where a step meets something that is not an object, and for
      any other final value. */
  function NameAt(v: Json, path: seq<string>): Option<string>
    decreases |path|
  {
    if path == [] then (if v.Str? && Strip(v.s) != [] then Some(Strip(v.s)) else None)
    else if !v.Obj? then None
    else NameAt(Member(v.members, path[0]), path[1..])
  }

  /** A name found is never blank and has no white space at either end. */
  lemma {:induction false} NameAtTrimmed(v: Json, path: seq<string>)
    ensures var r := NameAt(v, path);
      r.Some? ==> r.value != [] && !IsSpace(r.value[0]) && !IsSpace(r.value[|r.value| - 1])
    decreases |path|
  {
    if path == [] {
      if v.Str? {
        StripEdges(v.s);
      }
    } else if v.Obj? {
      NameAtTrimmed(Member(v.members, path[0]), path[1..]);
    }
  }

  /** `fetch_app_name` on the app-details response: `None` for a status other
      than 200 or a body that is not JSON (`body == None`), for a body of the
      wrong shape, and for a name that is not a string or only white space;
      otherwise the stripped name. `obj.get(str(appid), {})` on a missing key
      and `Null` for it end alike: the next `.get` finds no `"data"` object. */
  function AppNameOf(appid: int, body: Option<Json>): Option<string> {
    if body.None? then None else NameAt(body.value, [IntToString(appid), "data", "name"])
  }

  /** A game name from the details is never blank and has no white space at
      either end. */
  lemma AppNameOfTrimmed(appid: int, body: Option<Json>)
    ensures var r := AppNameOf(appid, body);
      r.Some? ==> r.value != [] && !IsSpace(r.value[0]) && !IsSpace(r.value[|r.value| - 1])
  {
    if body.Some? {
      NameAtTrimmed(body.value, [IntToString(appid), "data", "name"]);
    }
  }

  /** A details response of the documented shape, `{"<appid>": {"data":
      {"name": n}}}` (other members allowed), names the game `n` stripped,
      unless `n` is blank. */
  lemma AppNameOfFound(appid: int, body: map<string, Json>, entry: map<string, Json>,
                       data: map<string, Json>, n: string)
    requires IntToString(appid) in body && body[IntToString(appid)] == Obj(entry)
    requires "data" in entry && entry["data"] == Obj(data)
    requires "name" in data && data["name"] == Str(n)
    ensures AppNameOf(appid, Some(Obj(body))) == if Strip(n) == [] then None else Some(Strip(n))
  {
    var path := [IntToString(appid), "data", "name"];
    assert NameAt(Obj(body), path) == NameAt(Obj(entry), path[1..]);
    assert NameAt(Obj(entry), path[1..]) == NameAt(Obj(data), path[1..][1..]);
    assert NameAt(Obj(data), path[1..][1..]) == NameAt(Str(n), []);
  }

  /** `fetch_app_name(appid) or "unknown"`. */
  function NameOr(name: Option<string>): string {
    if name.Some? && name.value != [] then name.value else "unknown"
  }

  /** The game's directory relative to the run directory:
      `games/<rank:02d>_<appid>_<safe_slug(name)>`. */
  function GameDir(rank: nat, appid: int, name: string): string {
    ("games/" + ZeroPad(rank, 2)) + ("_" + IntToString(appid) + "_" + Slugify(name, 80, "steam"))
  }

  /** Below 100 a rank is written with exactly two digits. */
  lemma ZeroPadTwo(n: nat)
    requires n < 100
    ensures ZeroPad(n, 2) == [DigitChar(n / 10), DigitChar(n % 10)]
  {
    if n >= 10 {
      assert NatToString(n / 10) == [DigitChar(n / 10)];
    }
  }

  /** Games of different ranks below 100 get different directories, whatever
      their appids and names. */
  lemma GameDirsDistinct(r1: nat, a1: int, n1: string, r2: nat, a2: int, n2: string)
    requires r1 < 100 && r2 < 100 && r1 != r2
    ensures GameDir(r1, a1, n1) != GameDir(r2, a2, n2)
  {
    ZeroPadTwo(r1);
    ZeroPadTwo(r2);
    var p1, p2 := "games/" + ZeroPad(r1, 2), "games/" + ZeroPad(r2, 2);
    assert r1 == r1 / 10 * 10 + r1 % 10 && r2 == r2 / 10 * 10 + r2 % 10;
    assert p1[6] != p2[6] || p1[7] != p2[7];
    PrefixesDiffer(p1, p2, "_" + IntToString(a1) + "_" + Slugify(n1, 80, "steam"),
                   "_" + IntToString(a2) + "_" + Slugify(n2, 80, "steam"));
  }

  /** One entry of `batch_stats["games"]`. */
  datatype GameEntry = GameEntry(rank: nat, appid: int, name: string, reviewsFetched: nat,
                                 pagesFetched: nat, distribution: Counter<string>, dir: string)

  /** `batch_stats.json` without its clock fields and constant fields. */
  datatype BatchStats = BatchStats(top: int, maxReviewsPerGame: int, games: seq<GameEntry>,
                                   totalReviews: nat, distributionTotal: Counter<string>)

  /** `total_reviews` after the games, in order. */
  function TotalReviews(games: seq<GameEntry>): nat {
    if games == [] then 0 else TotalReviews(games[..|games| - 1]) + games[|games| - 1].reviewsFetched
  }

  /** `rating_total` after the games, in order: each game's distribution added in. */
  function TotalDistribution(games: seq<GameEntry>): Counter<string> {
    if games == [] then [] else Merge(TotalDistribution(games[..|games| - 1]), games[|games| - 1].distribution)
  }

  /** An entry as `main` records it for the game of rank `rank`: its
      directory comes from its name, and its distribution counts each of its
      reviews once, under one of the three labels. */
  predicate EntryOk(g: GameEntry, rank: nat, appid: int, maxReviews: int) {
    g.rank == rank && g.appid == appid &&
    g.dir == GameDir(rank, appid, g.name) &&
    (g.reviewsFetched == 0 || g.reviewsFetched <= maxReviews) &&
    Sum(g.distribution) == g.reviewsFetched && WellFormed(g.distribution) &&
    forall k :: k in Keys(g.distribution) ==> k in {"positive", "negative", "unknown"}
  }

  /** The total distribution counts exactly the total reviews, every key once. */
  lemma {:induction false} BatchTotals(games: seq<GameEntry>)
    requires forall i :: 0 <= i < |games| ==> Sum(games[i].distribution) == games[i].reviewsFetched
    ensures Sum(TotalDistribution(games)) == TotalReviews(games)
    ensures WellFormed(TotalDistribution(games))
  {
    if games != [] {
      var init := games[..|games| - 1];
      BatchTotals(init);
      SumMerge(TotalDistribution(init), games[|games| - 1].distribution);
      MergeWellFormed(TotalDistribution(init), games[|games| - 1].distribution);
    } else {
      assert Keys<string>([]) == [];
    }
  }

  /** The crawl of a game as `main` runs it: 100 reviews a page. */
  function GameOf(appid: int, maxReviewsPerGame: int, delay: real, script: seq<Response>, env: Env): Game {
    Game(appid, maxReviewsPerGame, delay, 100, script, env)
  }

  /** The entry `main` records for the game of rank `rank` named `name`,
      from the result `r` of its crawl; `None` when the crawl raised. */
  function EntryOf(rank: nat, appid: int, name: string, r: CrawlResult): (e: Option<GameEntry>)
    ensures e.Some? <==> r.stats.Some?
  {
    if r.stats.None? then None
    else
      var st := r.stats.value;
      Some(GameEntry(rank, appid, name, st.reviewsFetched, st.pagesFetched, st.distribution,
                     GameDir(rank, appid, name)))
  }

  /** What `main` records for the game of rank `rank` and appid `a`: its
      name from the app details, then its own crawl. */
  function MainEntry(maxReviewsPerGame: int, delay: real, details: int -> Option<Json>,
                     scripts: int -> seq<Response>, env: Env): (nat, int) -> Option<GameEntry>
  {
    (rank: nat, a: int) =>
      EntryOf(rank, a, NameOr(AppNameOf(a, details(a))), CrawlOf(GameOf(a, maxReviewsPerGame, delay, scripts(a), env)))
  }

  /** The entries of the games of `appids`, in rank order, each made by
      `entry` from its rank and appid; `None` as soon as one of them fails,
      since nothing in `main` catches a crawl that raises. */
  function EntriesOf(appids: seq<int>, entry: (nat, int) -> Option<GameEntry>): Option<seq<GameEntry>>
  {
    if appids == [] then Some([])
    else
      match EntriesOf(appids[..|appids| - 1], entry)
      case None => None
      case Some(gs) =>
        match entry(|appids|, appids[|appids| - 1])
        case None => None
        case Some(e) => Some(gs + [e])
  }

  /** `batch_stats.json` as a function of the search page and the servers. */
  function BatchOf(html: string, top: int, maxReviewsPerGame: int, delay: real,
                   details: int -> Option<Json>, scripts: int -> seq<Response>, env: Env): Option<BatchStats>
  {
    match EntriesOf(TopAppids(html, top), MainEntry(maxReviewsPerGame, delay, details, scripts, env))
    case None => None
    case Some(gs) => Some(BatchStats(top, maxReviewsPerGame, gs, TotalReviews(gs), TotalDistribution(gs)))
  }

  /** There is one entry per appid, the `i`-th being the one made for rank
      `i + 1`, exactly when none fails. */
  lemma {:induction false} EntriesOfAt(appids: seq<int>, entry: (nat, int) -> Option<GameEntry>)
    ensures var es := EntriesOf(appids, entry);
      (es.Some? <==> forall i :: 0 <= i < |appids| ==> entry(i + 1, appids[i]).Some?) &&
      (es.Some? ==> |es.value| == |appids| &&
                    forall i :: 0 <= i < |appids| ==> entry(i + 1, appids[i]) == Some(es.value[i]))
  {
    if appids != [] {
      var init := appids[..|appids| - 1];
      EntriesOfAt(init, entry);
      assert forall i :: 0 <= i < |init| ==> appids[i] == init[i];
      var es := EntriesOf(init, entry);
      if es.Some? {
        var e := entry(|appids|, appids[|appids| - 1]);
        if e.Some? {
          assert forall i :: 0 <= i < |init| ==> (es.value + [e.value])[i] == es.value[i];
        }
      }
    }
  }

  /** The sum, over the games, of the count each game's distribution has for `k`. */
  function KeyTotal(games: seq<GameEntry>, k: string): nat {
    if games == [] then 0 else KeyTotal(games[..|games| - 1], k) + Get(games[|games| - 1].distribution, k)
  }

  /** The total distribution is the key-wise sum of the games' distributions. */
  lemma {:induction false} TotalDistributionGet(games: seq<GameEntry>, k: string)
    ensures Get(TotalDistribution(games), k) == KeyTotal(games, k)
  {
    if games != [] {
      TotalDistributionGet(games[..|games| - 1], k);
      GetMerge(TotalDistribution(games[..|games| - 1]), games[|games| - 1].distribution, k);
    }
  }

  /** An entry made from a game's crawl counts each review of the game once,
      under one of the three labels, and its directory comes from its rank,
      appid and name. */
  lemma EntryOfOk(rank: nat, appid: int, name: string, g: Game)
    requires g.appid == appid
    ensures var e := EntryOf(rank, appid, name, CrawlOf(g));
      e.Some? ==> EntryOk(e.value, rank, appid, g.maxReviews) && e.value.name == name
  {
    CrawlGood(g);
    LabelCounterFacts(CrawlOf(g).lines);
  }

  /** The batch fails exactly when the crawl of one of the games of the
      search page raises. */
  lemma BatchFails(html: string, top: int, maxReviewsPerGame: int, delay: real,
                   details: int -> Option<Json>, scripts: int -> seq<Response>, env: Env)
    ensures var appids := TopAppids(html, top);
      BatchOf(html, top, maxReviewsPerGame, delay, details, scripts, env).None? <==>
        exists i :: 0 <= i < |appids| &&
          CrawlOf(GameOf(appids[i], maxReviewsPerGame, delay, scripts(appids[i]), env)).stats.None?
  {
    var appids := TopAppids(html, top);
    var entry := MainEntry(maxReviewsPerGame, delay, details, scripts, env);
    EntriesOfAt(appids, entry);
    forall i | 0 <= i < |appids|
      ensures entry(i + 1, appids[i]).Some? <==>
              CrawlOf(GameOf(appids[i], maxReviewsPerGame, delay, scripts(appids[i]), env)).stats.Some?
    {
    }
  }

  /** A batch that completes has one entry per appid of the search page, in
      rank order, each made from that game's own crawl, named after its app
      details and recorded as `main` records it. */
  lemma BatchEntries(html: string, top: int, maxReviewsPerGame: int, delay: real,
                     details: int -> Option<Json>, scripts: int -> seq<Response>, env: Env)
    ensures var appids := TopAppids(html, top);
      var b := BatchOf(html, top, maxReviewsPerGame, delay, details, scripts, env);
      b.Some? ==>
        |b.value.games| == |appids| &&
        forall i :: 0 <= i < |appids| ==>
          var a := appids[i];
          EntryOf(i + 1, a, NameOr(AppNameOf(a, details(a))),
                  CrawlOf(GameOf(a, maxReviewsPerGame, delay, scripts(a), env))) == Some(b.value.games[i]) &&
          EntryOk(b.value.games[i], i + 1, a, maxReviewsPerGame) &&
          b.value.games[i].name == NameOr(AppNameOf(a, details(a)))
  {
    var appids := TopAppids(html, top);
    var entry := MainEntry(maxReviewsPerGame, delay, details, scripts, env);
    EntriesOfAt(appids, entry);
    var es := EntriesOf(appids, entry);
    if es.Some? {
      var gs := es.value;
      forall i | 0 <= i < |appids|
        ensures var a := appids[i];
          EntryOf(i + 1, a, NameOr(AppNameOf(a, details(a))),
                  CrawlOf(GameOf(a, maxReviewsPerGame, delay, scripts(a), env))) == Some(gs[i]) &&
          EntryOk(gs[i], i + 1, a, maxReviewsPerGame) && gs[i].name == NameOr(AppNameOf(a, details(a)))
      {
        var a := appids[i];
        assert entry(i + 1, a) == Some(gs[i]);
        EntryOfOk(i + 1, a, NameOr(AppNameOf(a, details(a))), GameOf(a, maxReviewsPerGame, delay, scripts(a), env));
      }
    }
  }

  /** The totals of a batch that completes: the reviews fetched summed over
      the games, and the games' distributions added up key by key, which
      count every review once. */
  lemma BatchSums(html: string, top: int, maxReviewsPerGame: int, delay: real,
                  details: int -> Option<Json>, scripts: int -> seq<Response>, env: Env)
    ensures var b := BatchOf(html, top, maxReviewsPerGame, delay, details, scripts, env);
      b.Some? ==>
        b.value.totalReviews == TotalReviews(b.value.games) &&
        Sum(b.value.distributionTotal) == b.value.totalReviews &&
        forall k :: Get(b.value.distributionTotal, k) == KeyTotal(b.value.games, k)
  {
    var b := BatchOf(html, top, maxReviewsPerGame, delay, details, scripts, env);
    if b.Some? {
      var gs := b.value.games;
      BatchEntries(html, top, maxReviewsPerGame, delay, details, scripts, env);
      var appids := TopAppids(html, top);
      forall i | 0 <= i < |gs| ensures Sum(gs[i].distribution) == gs[i].reviewsFetched {
        assert EntryOk(gs[i], i + 1, appids[i], maxReviewsPerGame);
      }
      BatchTotals(gs);
      forall k ensures Get(TotalDistribution(gs), k) == KeyTotal(gs, k) {
        TotalDistributionGet(gs, k);
      }
    }
  }

  /** One iteration of `main`'s loop: the game's name, its crawl and its
      entry; `None` when the crawl raises. */
  method CrawlEntry(rank: nat, appid: int, maxReviewsPerGame: int, delay: real,
                    details: int -> Option<Json>, script: seq<Response>, env: Env)
    returns (entry: Option<GameEntry>)
    ensures entry == EntryOf(rank, appid, NameOr(AppNameOf(appid, details(appid))),
                             CrawlOf(GameOf(appid, maxReviewsPerGame, delay, script, env)))
    ensures entry.Some? ==> EntryOk(entry.value, rank, appid, maxReviewsPerGame)
    ensures entry.Some? ==> entry.value.name == NameOr(AppNameOf(appid, details(appid)))
  {
    var name := NameOr(AppNameOf(appid, details(appid)));
    var stats, lines, _, _, _, _ := CrawlOneGame(appid, maxReviewsPerGame, delay, 100, script, env);
    if stats.None? {
      return None;
    }
    var st := stats.value;
    LabelCounterFacts(lines);
    entry := Some(GameEntry(rank, appid, name, st.reviewsFetched, st.pagesFetched, st.distribution,
                            GameDir(rank, appid, name)));
  }

  /** `main`'s loop over the ranked appids: the entries in rank order, or
      `None` when a crawl raises, which nothing in `main` catches. */
  method CrawlGames(appids: seq<int>, maxReviewsPerGame: int, delay: real,
                    details: int -> Option<Json>, scripts: int -> seq<Response>, env: Env)
    returns (games: Option<seq<GameEntry>>, total: nat, ratingTotal: Counter<string>)
    ensures games == EntriesOf(appids, MainEntry(maxReviewsPerGame, delay, details, scripts, env))
    ensures games.Some? ==> total == TotalReviews(games.value) && ratingTotal == TotalDistribution(games.value)
  {
    ghost var entries := MainEntry(maxReviewsPerGame, delay, details, scripts, env);
    var gs: seq<GameEntry> := [];
    total, ratingTotal := 0, [];
    for k := 0 to |appids|
      invariant EntriesOf(appids[..k], entries) == Some(gs)
      invariant total == TotalReviews(gs) && ratingTotal == TotalDistribution(gs)
    {
      var entry := CrawlEntry(k + 1, appids[k], maxReviewsPerGame, delay, details, scripts(appids[k]), env);
      EntriesOfStep(appids, entries, k);
      if entry.None? {
        EntriesOfFailed(appids, entries, k + 1);
        return None, total, ratingTotal;
      }
      var g := entry.value;
      gs := gs + [g];
      total := total + g.reviewsFetched;
      ratingTotal := Merge(ratingTotal, g.distribution);
    }
    assert appids[..|appids|] == appids;
    games := Some(gs);
  }

  lemma EntriesOfStep(appids: seq<int>, entry: (nat, int) -> Option<GameEntry>, k: nat)
    requires k < |appids|
    ensures EntriesOf(appids[..k + 1], entry) ==
      match EntriesOf(appids[..k], entry)
      case None => None
      case Some(gs) =>
        match entry(k + 1, appids[k])
        case None => None
        case Some(e) => Some(gs + [e])
  {
    assert appids[..k + 1][..k] == appids[..k];
  }

  /** Once one entry has failed, the batch has failed, whatever follows. */
  lemma {:induction false} EntriesOfFailed(appids: seq<int>, entry: (nat, int) -> Option<GameEntry>, k: nat)
    requires k <= |appids| && EntriesOf(appids[..k], entry).None?
    ensures EntriesOf(appids, entry).None?
    decreases |appids| - k
  {
    if k < |appids| {
      var init := appids[..|appids| - 1];
      assert init[..k] == appids[..k];
      EntriesOfFailed(init, entry, k);
    } else {
      assert appids[..k] == appids;
    }
  }

  /** `main` against a scripted Steam: the search page `html`, the app-details
      response of each appid (`details`) and the review server of each appid
      (`scripts`). The games are crawled in rank order with 100 reviews a
      page; `batch` is `None` when a crawl raises. */
  method RunBatch(html: string, top: int, maxReviewsPerGame: int, delay: real,
                  details: int -> Option<Json>, scripts: int -> seq<Response>, env: Env)
    returns (appids: seq<int>, batch: Option<BatchStats>)
    ensures appids == TopAppids(html, top)
    ensures batch == BatchOf(html, top, maxReviewsPerGame, delay, details, scripts, env)
    ensures batch.Some? ==>
              var b := batch.value;
              b.top == top && b.maxReviewsPerGame == maxReviewsPerGame && |b.games| == |appids| &&
              (forall i :: 0 <= i < |appids| ==>
                 EntryOk(b.games[i], i + 1, appids[i], maxReviewsPerGame) &&
                 b.games[i].name == NameOr(AppNameOf(appids[i], details(appids[i])))) &&
              b.totalReviews == TotalReviews(b.games) && b.distributionTotal == TotalDistribution(b.games) &&
              Sum(b.distributionTotal) == b.totalReviews
  {
    appids := ParseTopAppids(html, top);
    var games, total, ratingTotal := CrawlGames(appids, maxReviewsPerGame, delay, details, scripts, env);
    if games.None? {
      return appids, None;
    }
    batch := Some(BatchStats(top, maxReviewsPerGame, games.value, total, ratingTotal));
    BatchEntries(html, top, maxReviewsPerGame, delay, details, scripts, env);
    BatchSums(html, top, maxReviewsPerGame, delay, details, scripts, env);
  }
}
