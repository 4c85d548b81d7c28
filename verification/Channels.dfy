/** The channel table: cooldown, reset, recovery, admin changes, and the failover loop of a forward
    (src/gateway/upstream.rs, src/jobs.rs, src/admin/channels.rs). */
module Channels {
  import opened Prelude
  import opened Shuffle
  import opened Sql
  import opened Text
  import opened UsageJson

  datatype ChannelStatus = Active | Disabled | Cooldown

  datatype Channel = Channel(
    id: string, provider: Protocol, name: string, baseUrl: string, weight: int,
    status: ChannelStatus, cooldownUntil: Option<int>, cooldownLevel: int)

  datatype Config = Config(baseSecs: int, maxSecs: int) {
    /** What startup validation guarantees. */
    predicate Valid() { 0 < baseSecs <= maxSecs <= I64_MAX }
  }

  // ----- one row

  function Pow2(k: nat): (p: int)
    ensures p > 0
  {
    if k == 0 then 1 else 2 * Pow2(k - 1)
  }

  /** base * 2^level, the exponent clamped to 0..32, saturating at 64 bits, then capped. */
  function Backoff(cfg: Config, level: int): int {
    var shift := Min(Max(level, 0), 32);
    Min(Min(cfg.baseSecs * Pow2(shift), I64_MAX), cfg.maxSecs)
  }

  function MarkRow(c: Channel, cfg: Config, level: int, now: int): Channel {
    c.(status := Cooldown, cooldownUntil := Some(now + Backoff(cfg, level)), cooldownLevel := level + 1)
  }

  /** After an answer: nothing is written if the snapshot already was at rest. */
  function ResetRow(c: Channel, level: int, status: ChannelStatus): Channel {
    if level == 0 && status == Active then c else c.(status := Active, cooldownUntil := None, cooldownLevel := 0)
  }

  predicate Recovers(c: Channel, now: int) {
    c.status == Cooldown && c.cooldownUntil.Some? && c.cooldownUntil.value <= now
  }

  function RecoversAt(now: int): Channel -> bool { (c: Channel) => Recovers(c, now) }

  function RecoverRow(c: Channel, now: int): Channel {
    if Recovers(c, now) then c.(status := Active, cooldownUntil := None) else c
  }

  predicate Cooling(c: Channel, now: int) { c.status == Cooldown && c.cooldownUntil.GetOr(-1) > now }

  /** Whether a forward that loads the table at `now` may use the channel. */
  predicate Routable(c: Channel, now: int) { c.status != Disabled && !Cooling(c, now) }

  /** An admin change; activating a channel lifts its cooldown. */
  datatype ChannelPatch = ChannelPatch(name: Option<string>, weight: Option<int>, activate: Option<bool>)

  function AdminRow(c: Channel, p: ChannelPatch): Channel {
    var d := c.(name := p.name.GetOr(c.name), weight := p.weight.GetOr(c.weight));
    if p.activate.None? then d
    else if p.activate.value then d.(status := Active, cooldownUntil := None, cooldownLevel := 0)
    else d.(status := Disabled)
  }

  function NewChannel(id: string, provider: Protocol, name: string, baseUrl: string, weight: int): Channel {
    Channel(id, provider, name, baseUrl, weight, Active, None, 0)
  }

  // ----- admin requests

  datatype CreateReq = CreateReq(providerType: string, name: string, baseUrl: string, credential: string, weight: Option<int>)

  datatype UpdateReq = UpdateReq(name: Option<string>, weight: Option<int>, status: Option<string>)

  function TrimSlashes(s: string): string {
    if s != [] && s[|s| - 1] == '/' then TrimSlashes(s[..|s| - 1]) else s
  }

  /** What is left of a URL after its scheme. */
  function AfterScheme(url: string): Option<string> {
    if "https://" <= url then Some(url[8..]) else if "http://" <= url then Some(url[7..]) else None
  }

  /** Trailing slashes go; what remains has a scheme, something, and "/v1" at the end. */
  function NormalizeBaseUrl(raw: string): Option<string> {
    var url := TrimSlashes(Trim(raw));
    match AfterScheme(url)
    case None => None
    case Some(rest) => if |rest| > 3 && rest[|rest| - 3..] == "/v1" then Some(url) else None
  }

  predicate Slashes(s: string) { forall i | 0 <= i < |s| :: s[i] == '/' }

  lemma {:induction false} TrimSlashesSplit(s: string)
    ensures TrimSlashes(s) <= s && Slashes(s[|TrimSlashes(s)|..])
    ensures TrimSlashes(s) != "" ==> TrimSlashes(s)[|TrimSlashes(s)| - 1] != '/'
  {
    if s != "" && s[|s| - 1] == '/' {
      TrimSlashesSplit(s[..|s| - 1]);
      var n := |TrimSlashes(s)|;
      assert forall i | n <= i < |s| - 1 :: s[i] == s[..|s| - 1][n..][i - n];
    }
  }

  lemma {:induction false} TrimSlashesExactly(s: string, slashes: string)
    requires Slashes(slashes) && (s != "" ==> s[|s| - 1] != '/')
    ensures TrimSlashes(s + slashes) == s
  {
    if slashes == "" {
      assert s + slashes == s;
    } else {
      var n := |slashes| - 1;
      assert (s + slashes)[..|s| + n] == s + slashes[..n];
      TrimSlashesExactly(s, slashes[..n]);
    }
  }

  /** The text, trimmed, is a scheme, something, "/v1" and any number of slashes. */
  ghost predicate IsBaseUrl(raw: string, url: string) {
    exists scheme, middle, slashes ::
      && scheme in {"https://", "http://"} && middle != "" && Slashes(slashes)
      && url == scheme + (middle + "/v1") && Trim(raw) == url + slashes
  }

  lemma AfterEither(scheme: string, rest: string)
    requires scheme in {"https://", "http://"}
    ensures AfterScheme(scheme + rest) == Some(rest)
  {
    assert (scheme + rest)[4] == scheme[4] && (scheme + rest)[|scheme|..] == rest;
  }

  lemma BeforeRest(url: string) returns (scheme: string)
    requires AfterScheme(url).Some?
    ensures scheme in {"https://", "http://"} && url == scheme + AfterScheme(url).value
  {
    scheme := if "https://" <= url then "https://" else "http://";
  }

  lemma Normalizes(raw: string, scheme: string, middle: string, slashes: string)
    requires scheme in {"https://", "http://"} && middle != "" && Slashes(slashes)
    requires Trim(raw) == scheme + (middle + "/v1") + slashes
    ensures NormalizeBaseUrl(raw) == Some(scheme + (middle + "/v1"))
  {
    var rest := middle + "/v1";
    var url := scheme + rest;
    assert url[|url| - 1] == rest[|rest| - 1] == '1';
    TrimSlashesExactly(url, slashes);
    AfterEither(scheme, rest);
    assert rest[|rest| - 3..] == "/v1";
  }

  lemma NormalizedForm(raw: string, url: string)
    requires NormalizeBaseUrl(raw) == Some(url)
    ensures IsBaseUrl(raw, url)
  {
    var rest := AfterScheme(url).value;
    var middle := rest[..|rest| - 3];
    var scheme := BeforeRest(url);
    TrimSlashesSplit(Trim(raw));
    var slashes := Trim(raw)[|url|..];
    assert rest == middle + "/v1" && Trim(raw) == url + slashes;
  }

  /** Exactly those texts are accepted, as what stands before the trailing slashes. */
  lemma NormalizedIff(raw: string, url: string)
    ensures NormalizeBaseUrl(raw) == Some(url) <==> IsBaseUrl(raw, url)
  {
    if NormalizeBaseUrl(raw) == Some(url) {
      NormalizedForm(raw, url);
    }
    if scheme, middle, slashes :| scheme in {"https://", "http://"} && middle != "" && Slashes(slashes)
                                  && url == scheme + (middle + "/v1") && Trim(raw) == url + slashes {
      Normalizes(raw, scheme, middle, slashes);
    }
  }

  /** A stored base URL is its own normal form, so a forward appends its path after exactly one slash. */
  lemma NormalizedOnce(raw: string)
    requires NormalizeBaseUrl(raw).Some?
    ensures var url := NormalizeBaseUrl(raw).value; NormalizeBaseUrl(url) == Some(url) && TrimSlashes(url) == url
  {
    var url := NormalizeBaseUrl(raw).value;
    var rest := AfterScheme(url).value;
    assert url[0] == 'h';
    assert url[|url| - 1] == rest[|rest| - 3..][2] == '1';
  }

  /** The row a create request inserts. */
  function ValidateCreate(id: string, req: CreateReq): Outcome<Channel> {
    var url := NormalizeBaseUrl(req.baseUrl);
    if req.providerType !in {"openai", "anthropic"} || Trim(req.name) == "" || Trim(req.credential) == ""
       || url.None? || req.weight.GetOr(1) < 1 then Refused(BadRequest)
    else Done(NewChannel(id, if req.providerType == "openai" then OpenAI else Anthropic, Trim(req.name), url.value,
                         req.weight.GetOr(1)))
  }

  function ValidateUpdate(req: UpdateReq): Outcome<ChannelPatch> {
    var name := if req.name.None? then None else Some(Trim(req.name.value));
    if (req.name.None? && req.weight.None? && req.status.None?)
       || req.status.GetOr("active") !in {"active", "disabled"}
       || name == Some("") || req.weight.GetOr(1) < 1 then Refused(BadRequest)
    else Done(ChannelPatch(name, req.weight, if req.status.None? then None else Some(req.status.value == "active")))
  }

  /** A channel can be created exactly from a known provider type, a name and a credential that are not blank, a base URL
      and a positive weight; it starts at rest. */
  lemma CreateAccepts(id: string, req: CreateReq)
    ensures ValidateCreate(id, req).Done? <==>
              && (req.providerType == "openai" || req.providerType == "anthropic")
              && !Blank(req.name) && !Blank(req.credential) && (exists url :: IsBaseUrl(req.baseUrl, url))
              && (req.weight.Some? ==> req.weight.value >= 1)
    ensures ValidateCreate(id, req).Done? ==>
              var c := ValidateCreate(id, req).value;
              && c.id == id && (c.provider == OpenAI <==> req.providerType == "openai") && c.name == Trim(req.name)
              && IsBaseUrl(req.baseUrl, c.baseUrl) && c.weight == (if req.weight.Some? then req.weight.value else 1)
              && c.status == Active && c.cooldownUntil == None && c.cooldownLevel == 0
    ensures ValidateCreate(id, req).Refused? ==> ValidateCreate(id, req).error == BadRequest
  {
    BlankIff(req.name);
    BlankIff(req.credential);
    if NormalizeBaseUrl(req.baseUrl).Some? {
      NormalizedIff(req.baseUrl, NormalizeBaseUrl(req.baseUrl).value);
    }
    if url :| IsBaseUrl(req.baseUrl, url) {
      NormalizedIff(req.baseUrl, url);
    }
  }

  /** A channel can be updated exactly when some field is given and each given field is valid. */
  lemma UpdateAccepts(req: UpdateReq)
    ensures ValidateUpdate(req).Done? <==>
              && (req.name.Some? || req.weight.Some? || req.status.Some?)
              && (req.name.Some? ==> !Blank(req.name.value)) && (req.weight.Some? ==> req.weight.value >= 1)
              && (req.status.Some? ==> req.status.value == "active" || req.status.value == "disabled")
    ensures ValidateUpdate(req).Refused? ==> ValidateUpdate(req).error == BadRequest
  {
    if req.name.Some? {
      BlankIff(req.name.value);
    }
  }

  /** A valid update writes the given fields and no others.  Activating lifts the cooldown and forgets the level; disabling
      keeps both, and takes the channel out of routing. */
  lemma UpdateWrites(c: Channel, req: UpdateReq, now: int)
    requires ValidateUpdate(req).Done?
    ensures var d := AdminRow(c, ValidateUpdate(req).value);
            && d.id == c.id && d.provider == c.provider && d.baseUrl == c.baseUrl
            && d.name == (if req.name.Some? then Trim(req.name.value) else c.name)
            && d.weight == (if req.weight.Some? then req.weight.value else c.weight)
            && (req.status == None ==>
                  d.status == c.status && d.cooldownUntil == c.cooldownUntil && d.cooldownLevel == c.cooldownLevel)
            && (req.status == Some("active") ==>
                  d.status == Active && d.cooldownUntil == None && d.cooldownLevel == 0 && Routable(d, now))
            && (req.status == Some("disabled") ==>
                  && d.status == Disabled && d.cooldownUntil == c.cooldownUntil && d.cooldownLevel == c.cooldownLevel
                  && !Routable(d, now))
  {
  }

  predicate HasId(rows: seq<Channel>, id: string) { exists i | 0 <= i < |rows| :: rows[i].id == id }

  // ----- an upstream's answer

  datatype Answer = DecryptFailure | NetworkError | Status(code: nat)

  /** 401, 403, 408, 429 and 5xx, and everything that is not an answer at all. */
  predicate Retryable(a: Answer) {
    match a
    case Status(code) => code in {401, 403, 408, 429} || code >= 500
    case _ => true
  }

  datatype ForwardResult =
    | NoChannel
    | UpstreamFailed
    | Answered(channelId: string, code: nat)

  // ----- the table

  predicate UniqueIds(rows: seq<Channel>) { forall i, j | 0 <= i < j < |rows| :: rows[i].id != rows[j].id }

  /** SELECT ... WHERE provider_type = ? AND status != 'disabled'. */
  function LoadedBy(provider: Protocol): Channel -> bool {
    (c: Channel) => c.provider == provider && c.status != Disabled
  }

  function CandidatesOf(loaded: seq<Channel>, now: int): seq<Candidate> {
    if loaded == [] then []
    else
      var rest := CandidatesOf(loaded[1..], now);
      var c := loaded[0];
      if Cooling(c, now) then rest else [Candidate(c.id, c.baseUrl, c.weight)] + rest
  }

  /** The loaded channels that are not cooling are candidates, and there are no others. */
  lemma {:induction false} CandidatesAre(loaded: seq<Channel>, now: int)
    ensures forall k :: k in CandidatesOf(loaded, now) <==>
              exists c :: c in loaded && !Cooling(c, now) && k == Candidate(c.id, c.baseUrl, c.weight)
  {
    if loaded != [] {
      CandidatesAre(loaded[1..], now);
      assert forall c :: c in loaded <==> c == loaded[0] || c in loaded[1..];
    }
  }

  /** The channels a forward may try. */
  function Usable(rows: seq<Channel>, provider: Protocol, now: int): seq<Candidate> {
    CandidatesOf(SelectWhere(rows, LoadedBy(provider)), now)
  }

  predicate DistinctIds(cs: seq<Candidate>) { forall i, j | 0 <= i < j < |cs| :: cs[i].id != cs[j].id }

  lemma {:induction false} CandidatesDistinct(loaded: seq<Channel>, now: int)
    requires UniqueIds(loaded)
    ensures DistinctIds(CandidatesOf(loaded, now))
  {
    if loaded != [] {
      CandidatesDistinct(loaded[1..], now);
      var rest := CandidatesOf(loaded[1..], now);
      forall j | 0 <= j < |rest|
        ensures rest[j].id != loaded[0].id
      {
        assert rest[j] in rest;
        CandidatesAre(loaded[1..], now);
      }
    }
  }

  lemma {:induction false} OnceEach(a: seq<Candidate>, c: Candidate)
    requires DistinctIds(a)
    ensures multiset(a)[c] <= 1
  {
    if a != [] {
      assert a == [a[0]] + a[1..];
      OnceEach(a[1..], c);
      if a[0] == c {
        assert c !in a[1..];
      }
    }
  }

  lemma PermutedDistinct(a: seq<Candidate>, b: seq<Candidate>)
    requires DistinctIds(a) && multiset(a) == multiset(b)
    ensures DistinctIds(b) && forall c :: c in a <==> c in b
  {
    assert forall c :: c in a <==> c in multiset(a);
    assert forall c :: c in b <==> c in multiset(b);
    forall i, j | 0 <= i < j < |b|
      ensures b[i].id != b[j].id
    {
      if b[i] == b[j] {
        assert b == b[..i] + [b[i]] + b[i + 1..j] + [b[j]] + b[j + 1..];
        assert multiset(b)[b[i]] >= 2;
        OnceEach(a, b[i]);
        assert false;
      } else {
        assert b[i] in a && b[j] in a;
      }
    }
  }

  /** Position of an id in the order of attempts, or the number of attempts. */
  function PositionOf(tried: seq<string>, id: string): (k: nat)
    ensures k <= |tried| && id !in tried[..k] && (k < |tried| ==> tried[k] == id)
  {
    if tried == [] || tried[0] == id then 0
    else
      var k := 1 + PositionOf(tried[1..], id);
      assert tried[..k] == [tried[0]] + tried[1..][..k - 1];
      k
  }

  /** The recovery job activates exactly the channels whose cooldown deadline has come, keeps their level, and reports how
      many rows it changed. */
  lemma RecoversExactly(rows: seq<Channel>, after: seq<Channel>, now: int)
    requires |after| == |rows| && forall i | 0 <= i < |rows| :: after[i] == RecoverRow(rows[i], now)
    ensures forall i, until: int | 0 <= i < |rows| && rows[i].status == Cooldown && rows[i].cooldownUntil == Some(until) ::
              after[i] == if until <= now then rows[i].(status := Active, cooldownUntil := None) else rows[i]
    ensures forall i | 0 <= i < |rows| && (rows[i].status != Cooldown || rows[i].cooldownUntil.None?) :: after[i] == rows[i]
    ensures |SelectWhere(rows, RecoversAt(now))| == Changed(rows, after)
  {
    MatchedAreChanged(rows, after, RecoversAt(now));
  }

  /** What every reachable row keeps: whoever cools has failed before and has a deadline, and an active row has none. */
  predicate RowSound(c: Channel) {
    && 0 <= c.cooldownLevel
    && (c.status == Cooldown ==> 1 <= c.cooldownLevel && c.cooldownUntil.Some?)
    && (c.status == Active ==> c.cooldownUntil.None?)
  }

  /** What a forward that tried these channels leaves of a row: a failed channel cools at its level at load time, with
      the clock of its attempt; the one that answered is at rest; the others are untouched. */
  function AfterForward(c: Channel, cfg: Config, tried: seq<string>, answers: string -> Answer, clock: nat -> int): (r: Channel)
    ensures r.id == c.id
  {
    var k := PositionOf(tried, c.id);
    if k == |tried| then c
    else if Retryable(answers(c.id)) then MarkRow(c, cfg, c.cooldownLevel, clock(k))
    else ResetRow(c, c.cooldownLevel, c.status)
  }

  lemma TriedAt(tried: seq<string>, id: string)
    ensures id in tried <==> PositionOf(tried, id) < |tried|
  {
    var k := PositionOf(tried, id);
    assert forall j | 0 <= j < k :: tried[j] == tried[..k][j];
  }

  /** The channel cools for the backoff of its level from its failure on, at the next level. */
  predicate CoolsNext(c: Channel, d: Channel, cfg: Config, tried: seq<string>, clock: nat -> int) {
    d == c.(status := Cooldown, cooldownLevel := c.cooldownLevel + 1,
            cooldownUntil := Some(clock(PositionOf(tried, c.id)) + Backoff(cfg, c.cooldownLevel)))
  }

  predicate AtRest(c: Channel, d: Channel) { d == c.(status := Active, cooldownUntil := None, cooldownLevel := 0) }

  /** The states a forward leaves: a channel that failed is out of routing until its backoff has passed, at the next level;
      the one that answered is active at level zero; the others are untouched. */
  lemma ForwardLeaves(c: Channel, cfg: Config, tried: seq<string>, answers: string -> Answer, clock: nat -> int, now: int)
    requires RowSound(c)
    ensures var d := AfterForward(c, cfg, tried, answers, clock);
            && RowSound(d)
            && (c.id !in tried ==> d == c)
            && (c.id in tried && !Retryable(answers(c.id)) ==>
                  d == c.(status := Active, cooldownUntil := None, cooldownLevel := 0))
            && (c.id in tried && Retryable(answers(c.id)) ==>
                  && d.cooldownLevel == c.cooldownLevel + 1
                  && (Routable(d, now) <==> clock(PositionOf(tried, c.id)) + Backoff(cfg, c.cooldownLevel) <= now))
  {
    var k := PositionOf(tried, c.id);
    assert forall j | 0 <= j < k :: tried[j] == tried[..k][j];
  }

  /** All rows are as a forward that tried these channels leaves them. */
  predicate RowsAfter(before: seq<Channel>, rows: seq<Channel>, cfg: Config, tried: seq<string>,
                      answers: string -> Answer, clock: nat -> int) {
    |rows| == |before| && forall i | 0 <= i < |rows| :: rows[i] == AfterForward(before[i], cfg, tried, answers, clock)
  }

  function IdsOf(cs: seq<Candidate>): (ids: seq<string>)
    ensures |ids| == |cs| && forall i | 0 <= i < |cs| :: ids[i] == cs[i].id
  {
    seq(|cs|, i requires 0 <= i < |cs| => cs[i].id)
  }

  lemma {:induction false} PositionSnoc(tried: seq<string>, id: string, x: string)
    requires id !in tried
    ensures PositionOf(tried + [id], x)
            == if x in tried then PositionOf(tried, x) else if x == id then |tried| else |tried| + 1
    ensures x in tried <==> PositionOf(tried, x) < |tried|
  {
    var k, n := PositionOf(tried + [id], x), PositionOf(tried, x);
    var all := tried + [id];
    assert forall j | 0 <= j < k :: all[j] == all[..k][j];
    assert forall j | 0 <= j < n :: tried[j] == tried[..n][j];
    assert forall j | 0 <= j < |tried| :: all[j] == tried[j];
    assert all[|tried|] == id;
  }

  /** One more attempt touches one row. */
  lemma AttemptedNext(c: Channel, cfg: Config, tried: seq<string>, id: string, answers: string -> Answer, clock: nat -> int)
    requires id !in tried
    ensures AfterForward(c, cfg, tried + [id], answers, clock)
            == if c.id != id then AfterForward(c, cfg, tried, answers, clock)
               else if Retryable(answers(id)) then MarkRow(c, cfg, c.cooldownLevel, clock(|tried|))
               else ResetRow(c, c.cooldownLevel, c.status)
    ensures c.id == id ==> AfterForward(c, cfg, tried, answers, clock) == c
  {
    PositionSnoc(tried, id, c.id);
  }

  lemma OneUntouched(before: seq<Channel>, mid: seq<Channel>, cfg: Config, tried: seq<string>, id: string,
                     answers: string -> Answer, clock: nat -> int)
    requires RowsAfter(before, mid, cfg, tried, answers, clock) && id !in tried
    ensures forall i | 0 <= i < |mid| && mid[i].id == id :: mid[i] == before[i]
  {
    forall i | 0 <= i < |mid| && mid[i].id == id
      ensures mid[i] == before[i]
    {
      AttemptedNext(before[i], cfg, tried, id, answers, clock);
    }
  }

  /** Concluding one more attempt. */
  lemma OneMore(before: seq<Channel>, mid: seq<Channel>, rows: seq<Channel>, cfg: Config, tried: seq<string>, id: string,
                answers: string -> Answer, clock: nat -> int)
    requires RowsAfter(before, mid, cfg, tried, answers, clock) && id !in tried && |rows| == |mid|
    requires forall i | 0 <= i < |rows| ::
               var c := mid[i];
               rows[i] == if c.id != id then c
                          else if Retryable(answers(id)) then MarkRow(c, cfg, before[i].cooldownLevel, clock(|tried|))
                          else ResetRow(c, before[i].cooldownLevel, before[i].status)
    ensures RowsAfter(before, rows, cfg, tried + [id], answers, clock)
  {
    forall i | 0 <= i < |rows|
      ensures rows[i] == AfterForward(before[i], cfg, tried + [id], answers, clock)
    {
      AttemptedNext(before[i], cfg, tried, id, answers, clock);
    }
  }

  /** The level and status of each loaded channel at load time. */
  function MetaOf(loaded: seq<Channel>): map<string, (int, ChannelStatus)> {
    if loaded == [] then map[]
    else
      var n := |loaded| - 1;
      MetaOf(loaded[..n])[loaded[n].id := (loaded[n].cooldownLevel, loaded[n].status)]
  }

  lemma {:induction false} MetaRight(loaded: seq<Channel>, c: Channel)
    requires UniqueIds(loaded) && c in loaded
    ensures c.id in MetaOf(loaded) && MetaOf(loaded)[c.id] == (c.cooldownLevel, c.status)
  {
    var n := |loaded| - 1;
    if c != loaded[n] {
      MetaRight(loaded[..n], c);
    }
  }

  /** The channel behind a usable candidate. */
  lemma BehindUsable(rows: seq<Channel>, provider: Protocol, now: int, k: Candidate) returns (c: Channel)
    requires k in Usable(rows, provider, now)
    ensures c in rows && c in SelectWhere(rows, LoadedBy(provider)) && c.id == k.id
    ensures c.provider == provider && Routable(c, now)
  {
    var loaded := SelectWhere(rows, LoadedBy(provider));
    CandidatesAre(loaded, now);
    c :| c in loaded && !Cooling(c, now) && k == Candidate(c.id, c.baseUrl, c.weight);
  }

  lemma UsableChannel(rows: seq<Channel>, provider: Protocol, now: int, c: Channel)
    requires c in rows && c.provider == provider && Routable(c, now)
    ensures Candidate(c.id, c.baseUrl, c.weight) in Usable(rows, provider, now)
  {
    assert c in SelectWhere(rows, LoadedBy(provider));
    CandidatesAre(SelectWhere(rows, LoadedBy(provider)), now);
  }

  /** A provider without a channel that is not disabled. */
  predicate NoneLoaded(rows: seq<Channel>, provider: Protocol) {
    forall c | c in rows :: c.provider != provider || c.status == Disabled
  }

  /** Some routable channel of the provider would give a definite answer. */
  predicate SomeoneAnswers(rows: seq<Channel>, provider: Protocol, now: int, answers: string -> Answer) {
    exists c | c in rows :: c.provider == provider && Routable(c, now) && !Retryable(answers(c.id))
  }

  predicate AllRetryable(ids: seq<string>, answers: string -> Answer) { forall k | 0 <= k < |ids| :: Retryable(answers(ids[k])) }

  predicate Distinct(ids: seq<string>) { forall j, k | 0 <= j < k < |ids| :: ids[j] != ids[k] }

  /** The attempts: some of the ids in order, all but the last retryable. */
  predicate Attempts(tried: seq<string>, ids: seq<string>, answers: string -> Answer) {
    tried <= ids && (tried != [] ==> AllRetryable(tried[..|tried| - 1], answers))
  }

  /** `meta` gives each tried channel the level and status of its row. */
  predicate MetaMatches(rows: seq<Channel>, ids: seq<string>, meta: map<string, (int, ChannelStatus)>) {
    forall i | 0 <= i < |rows| && rows[i].id in ids ::
      rows[i].id in meta && meta[rows[i].id] == (rows[i].cooldownLevel, rows[i].status)
  }

  lemma EmptyUsable(rows: seq<Channel>, provider: Protocol, now: int, answers: string -> Answer)
    ensures SelectWhere(rows, LoadedBy(provider)) == [] <==> NoneLoaded(rows, provider)
    ensures Usable(rows, provider, now) == [] ==> !SomeoneAnswers(rows, provider, now, answers)
    ensures SelectWhere(rows, LoadedBy(provider)) == [] ==> Usable(rows, provider, now) == []
  {
    var loaded := SelectWhere(rows, LoadedBy(provider));
    forall c | c in rows && c.provider == provider && Routable(c, now)
      ensures Usable(rows, provider, now) != []
    {
      UsableChannel(rows, provider, now, c);
    }
    assert forall c | c in rows && c.provider == provider && c.status != Disabled :: c in loaded;
    assert loaded != [] ==> loaded[0] in loaded;
  }

  ghost predicate SameMembers(a: seq<Candidate>, b: seq<Candidate>) { forall k :: k in a <==> k in b }

  /** The shuffled candidates have distinct ids and match the snapshot. */
  lemma OrderedUsable(rows: seq<Channel>, provider: Protocol, now: int, ordered: seq<Candidate>, draws: seq<int>)
    requires UniqueIds(rows) && ValidDraws(Usable(rows, provider, now), draws)
    requires ordered == Shuffled(Usable(rows, provider, now), draws)
    ensures Distinct(IdsOf(ordered)) && |ordered| == |Usable(rows, provider, now)|
    ensures SameMembers(ordered, Usable(rows, provider, now))
    ensures MetaMatches(rows, IdsOf(ordered), MetaOf(SelectWhere(rows, LoadedBy(provider))))
  {
    var loaded, usable := SelectWhere(rows, LoadedBy(provider)), Usable(rows, provider, now);
    SelectUnique(rows, LoadedBy(provider), (c: Channel) => c.id);
    CandidatesDistinct(loaded, now);
    ShufflePermutes(usable, draws);
    PermutedDistinct(usable, ordered);
    assert |multiset(usable)| == |usable| && |multiset(ordered)| == |ordered|;
    forall i | 0 <= i < |rows| && rows[i].id in IdsOf(ordered)
      ensures rows[i].id in MetaOf(loaded) && MetaOf(loaded)[rows[i].id] == (rows[i].cooldownLevel, rows[i].status)
    {
      var j :| 0 <= j < |ordered| && IdsOf(ordered)[j] == rows[i].id;
      var c := BehindUsable(rows, provider, now, ordered[j]);
      SameByKey(rows, (c: Channel) => c.id, rows[i], c);
      MetaRight(loaded, c);
    }
  }

  /** A usable channel answers iff one of the shuffled ids does. */
  lemma AnswerAmongUsable(rows: seq<Channel>, provider: Protocol, now: int, ordered: seq<Candidate>,
                          answers: string -> Answer)
    requires SameMembers(ordered, Usable(rows, provider, now))
    ensures !AllRetryable(IdsOf(ordered), answers) <==> SomeoneAnswers(rows, provider, now, answers)
  {
    if k :| 0 <= k < |ordered| && !Retryable(answers(IdsOf(ordered)[k])) {
      var c := BehindUsable(rows, provider, now, ordered[k]);
      assert c in rows && !Retryable(answers(c.id));
    }
    if c :| c in rows && c.provider == provider && Routable(c, now) && !Retryable(answers(c.id)) {
      UsableChannel(rows, provider, now, c);
      var candidate := Candidate(c.id, c.baseUrl, c.weight);
      assert candidate in ordered;
      var k :| 0 <= k < |ordered| && ordered[k] == candidate;
      assert IdsOf(ordered)[k] == c.id;
    }
  }

  /** The result is the definite answer of the last channel tried. */
  predicate AnsweredLast(result: ForwardResult, tried: seq<string>, answers: string -> Answer)
    requires result.Answered?
  {
    && tried != [] && result.channelId == tried[|tried| - 1]
    && answers(result.channelId) == Status(result.code) && !Retryable(Status(result.code))
  }

  /** Failover by status code.  401, 403, 408, 429, 500 and above, network errors and decryption failures fail over: the
      channel cools at the next level, and the forward goes on.  Every other code is the result, and its channel comes to
      rest; so if a usable channel would give one, the forward is answered. */
  lemma FailoverByCode(rows: seq<Channel>, after: seq<Channel>, provider: Protocol, now: int, result: ForwardResult,
                       ids: seq<string>, tried: seq<string>, cfg: Config, answers: string -> Answer, clock: nat -> int)
    requires result.Answered? <==> SomeoneAnswers(rows, provider, now, answers)
    requires result.Answered? ==> AnsweredLast(result, tried, answers)
    requires Attempts(tried, ids, answers) && RowsAfter(rows, after, cfg, tried, answers, clock)
    ensures result.Answered? ==> result.code !in {401, 403, 408, 429} && result.code < 500
    ensures forall c, code: nat | c in rows && c.provider == provider && Routable(c, now) && answers(c.id) == Status(code) ::
              code !in {401, 403, 408, 429} && code < 500 ==> result.Answered?
    ensures forall i, code: nat | 0 <= i < |rows| && rows[i].id in tried && answers(rows[i].id) == Status(code) ::
              if code in {401, 403, 408, 429} || code >= 500 then CoolsNext(rows[i], after[i], cfg, tried, clock)
              else RowSound(rows[i]) ==> AtRest(rows[i], after[i])
    ensures forall i | 0 <= i < |rows| && rows[i].id in tried && answers(rows[i].id) in {NetworkError, DecryptFailure} ::
              CoolsNext(rows[i], after[i], cfg, tried, clock)
    ensures forall k, code: nat | 0 <= k < |tried| - 1 && answers(tried[k]) == Status(code) ::
              code in {401, 403, 408, 429} || code >= 500
  {
    forall i | 0 <= i < |rows| && rows[i].id in tried
      ensures PositionOf(tried, rows[i].id) < |tried|
    {
      TriedAt(tried, rows[i].id);
    }
    forall k | 0 <= k < |tried| - 1
      ensures Retryable(answers(tried[k]))
    {
      assert tried[..|tried| - 1][k] == tried[k];
    }
  }

  class ChannelTable {
    const config: Config
    var rows: seq<Channel>

    constructor (config: Config)
      ensures this.config == config && rows == []
    {
      this.config := config;
      rows := [];
    }

    method MarkCooldown(id: string, level: int, now: int)
      modifies this
      ensures |rows| == |old(rows)|
      ensures forall i | 0 <= i < |rows| ::
                rows[i] == if old(rows)[i].id == id then MarkRow(old(rows)[i], config, level, now) else old(rows)[i]
    {
      var shift := Min(Max(level, 0), 32);
      var backoff := Min(Min(config.baseSecs * Pow2(shift), I64_MAX), config.maxSecs);
      var until := now + backoff;
      var newLevel := level + 1;
      rows := UpdateWhere(rows, (c: Channel) => c.id == id,
                          (c: Channel) => c.(status := Cooldown, cooldownUntil := Some(until), cooldownLevel := newLevel));
    }

    method ResetCooldown(id: string, level: int, status: ChannelStatus)
      modifies this
      ensures |rows| == |old(rows)|
      ensures forall i | 0 <= i < |rows| ::
                rows[i] == if old(rows)[i].id == id then ResetRow(old(rows)[i], level, status) else old(rows)[i]
    {
      if level == 0 && status == Active {
        return;
      }
      rows := UpdateWhere(rows, (c: Channel) => c.id == id,
                          (c: Channel) => c.(status := Active, cooldownUntil := None, cooldownLevel := 0));
    }

    method RunCooldownRecoveryOnce(now: int) returns (changed: nat)
      modifies this
      ensures |rows| == |old(rows)| && forall i | 0 <= i < |rows| :: rows[i] == RecoverRow(old(rows)[i], now)
      ensures UniqueIds(old(rows)) ==> UniqueIds(rows)
      ensures changed == |SelectWhere(old(rows), RecoversAt(now))|
    {
      changed := |SelectWhere(rows, RecoversAt(now))|;
      rows := UpdateWhere(rows, RecoversAt(now), (c: Channel) => c.(status := Active, cooldownUntil := None));
    }

    method Create(id: string, req: CreateReq) returns (r: Outcome<Channel>)
      modifies this
      ensures r == ValidateCreate(id, req)
      ensures rows == if r.Done? then old(rows) + [r.value] else old(rows)
      ensures UniqueIds(old(rows)) && !HasId(old(rows), id) ==> UniqueIds(rows)
    {
      if req.providerType !in {"openai", "anthropic"} {
        return Refused(BadRequest);
      }
      var name := Trim(req.name);
      if name == "" || Trim(req.credential) == "" {
        return Refused(BadRequest);
      }
      var url := NormalizeBaseUrl(req.baseUrl);
      var weight := req.weight.GetOr(1);
      if url.None? || weight < 1 {
        return Refused(BadRequest);
      }
      var provider := if req.providerType == "openai" then OpenAI else Anthropic;
      var row := Channel(id, provider, name, url.value, weight, Active, None, 0);
      rows := rows + [row];
      return Done(row);
    }

    method Update(id: string, req: UpdateReq) returns (r: Outcome<()>)
      modifies this
      ensures ValidateUpdate(req).Refused? ==> rows == old(rows) && r == Refused(ValidateUpdate(req).error)
      ensures ValidateUpdate(req).Done? ==>
                && r == (if HasId(old(rows), id) then Done(()) else Refused(NotFound))
                && |rows| == |old(rows)|
                && forall i | 0 <= i < |rows| ::
                     rows[i] == if old(rows)[i].id == id then AdminRow(old(rows)[i], ValidateUpdate(req).value) else old(rows)[i]
      ensures UniqueIds(old(rows)) ==> UniqueIds(rows)
    {
      if req.name.None? && req.weight.None? && req.status.None? {
        return Refused(BadRequest);
      }
      var clearCooldown := false;
      if req.status.Some? {
        if req.status.value !in {"active", "disabled"} {
          return Refused(BadRequest);
        }
        clearCooldown := req.status.value == "active";
      }
      var name := if req.name.None? then None else Some(Trim(req.name.value));
      if name == Some("") || req.weight.GetOr(1) < 1 {
        return Refused(BadRequest);
      }
      if !HasId(rows, id) {
        return Refused(NotFound);
      }
      rows := UpdateWhere(rows, (c: Channel) => c.id == id, (c: Channel) =>
        c.(name := name.GetOr(c.name), weight := req.weight.GetOr(c.weight),
           status := if req.status.None? then c.status else if req.status.value == "active" then Active else Disabled,
           cooldownUntil := if clearCooldown then None else c.cooldownUntil,
           cooldownLevel := if clearCooldown then 0 else c.cooldownLevel));
      r := Done(());
    }

    /** What follows one attempt: the channel cools down, or comes to rest. */
    method Conclude(id: string, level: int, status: ChannelStatus, answer: Answer, now: int)
      modifies this
      ensures |rows| == |old(rows)|
      ensures forall i | 0 <= i < |rows| ::
                var c := old(rows)[i];
                rows[i] == if c.id != id then c
                           else if Retryable(answer) then MarkRow(c, config, level, now) else ResetRow(c, level, status)
    {
      if Retryable(answer) {
        MarkCooldown(id, level, now);
      } else {
        ResetCooldown(id, level, status);
      }
    }

    /** The failover loop over the shuffled candidates. */
    method TryInOrder(ids: seq<string>, meta: map<string, (int, ChannelStatus)>, answers: string -> Answer,
                      clock: nat -> int)
      returns (answered: Option<string>, ghost tried: seq<string>)
      requires Distinct(ids) && MetaMatches(rows, ids, meta) && UniqueIds(rows)
      modifies this
      ensures UniqueIds(rows)
      ensures Attempts(tried, ids, answers)
      ensures answered.None? ==> tried == ids && AllRetryable(ids, answers)
      ensures answered.Some? ==> tried != [] && answered.value == tried[|tried| - 1] && !Retryable(answers(answered.value))
                                 && !AllRetryable(ids, answers)
      ensures RowsAfter(old(rows), rows, config, tried, answers, clock)
    {
      tried := [];
      ghost var before := rows;
      for k := 0 to |ids|
        invariant tried == ids[..k]
        invariant forall j | 0 <= j < k :: Retryable(answers(ids[j]))
        invariant RowsAfter(before, rows, config, tried, answers, clock)
      {
        var id := ids[k];
        var (level, status) := if id in meta then meta[id] else (0, Active);
        assert id !in tried;
        ghost var mid := rows;
        OneUntouched(before, mid, config, tried, id, answers, clock);
        Conclude(id, level, status, answers(id), clock(k));
        OneMore(before, mid, rows, config, tried, id, answers, clock);
        tried := tried + [id];
        if !Retryable(answers(id)) {
          return Some(id), tried;
        }
      }
      assert ids[..|ids|] == ids;
      return None, tried;
    }

    /** The part of a forward that has usable channels. */
    method TryUsable(provider: Protocol, loaded: seq<Channel>, now: int, draws: seq<int>, answers: string -> Answer,
                     clock: nat -> int)
      returns (result: ForwardResult, ghost tried: seq<string>)
      requires UniqueIds(rows) && ValidDraws(Usable(rows, provider, now), draws)
      requires loaded == SelectWhere(rows, LoadedBy(provider))
      modifies this
      ensures Attempts(tried, IdsOf(Shuffled(Usable(old(rows), provider, now), draws)), answers) && Distinct(tried)
      ensures !result.Answered? ==> result.UpstreamFailed? && |tried| == |Usable(old(rows), provider, now)|
      ensures result.Answered? <==> SomeoneAnswers(old(rows), provider, now, answers)
      ensures result.Answered? ==> AnsweredLast(result, tried, answers)
      ensures RowsAfter(old(rows), rows, config, tried, answers, clock) && UniqueIds(rows)
    {
      ghost var before := rows;
      var ordered := WeightedShuffle(CandidatesOf(loaded, now), draws);
      OrderedUsable(rows, provider, now, ordered, draws);
      AnswerAmongUsable(before, provider, now, ordered, answers);
      var answered;
      answered, tried := TryInOrder(IdsOf(ordered), MetaOf(loaded), answers, clock);
      match answered
      case Some(id) => return Answered(id, answers(id).code), tried;
      case None => return UpstreamFailed, tried;
    }

    /** One forward.  `answers` is what each upstream would answer, `clock` the time of each attempt, `draws` the random
        draws of the shuffle. */
    method Forward(provider: Protocol, now: int, draws: seq<int>, answers: string -> Answer, clock: nat -> int)
      returns (result: ForwardResult, ghost tried: seq<string>)
      requires UniqueIds(rows) && ValidDraws(Usable(rows, provider, now), draws)
      modifies this
      // the attempts go down the shuffled order, each channel at most once, and stop at the first definite answer
      ensures Attempts(tried, IdsOf(Shuffled(Usable(old(rows), provider, now), draws)), answers) && Distinct(tried)
      ensures !result.Answered? ==> |tried| == |Usable(old(rows), provider, now)|
      // the outcome
      ensures result.NoChannel? <==> NoneLoaded(old(rows), provider)
      ensures result.Answered? <==> SomeoneAnswers(old(rows), provider, now, answers)
      ensures result.Answered? ==> AnsweredLast(result, tried, answers)
      ensures result.Answered? ==> result.code !in {401, 403, 408, 429} && result.code < 500
      // the table
      ensures RowsAfter(old(rows), rows, config, tried, answers, clock) && UniqueIds(rows)
    {
      var loaded := SelectWhere(rows, LoadedBy(provider));
      EmptyUsable(rows, provider, now, answers);
      if loaded == [] {
        return NoChannel, [];
      }
      if CandidatesOf(loaded, now) == [] {
        return UpstreamFailed, [];
      }
      result, tried := TryUsable(provider, loaded, now, draws, answers, clock);
    }
  }
}
