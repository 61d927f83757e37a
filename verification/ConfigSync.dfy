/** The edge's conditional, single-flight refresh against the control plane's
    current publication, as atomic steps that publications may fall between. */
module ConfigSync {
  import opened Letters
  import opened Text

  // ----- entity tags -----

  predicate IsSpace(c: char) {
    || c == ' ' || '\t' <= c <= '\r' || c == '\U{85}' || c == '\U{A0}' || c == '\U{1680}'
    || '\U{2000}' <= c <= '\U{200A}' || c == '\U{2028}' || c == '\U{2029}' || c == '\U{202F}'
    || c == '\U{205F}' || c == '\U{3000}'
  }

  function TrimLeft(s: string): string {
    if s != "" && IsSpace(s[0]) then TrimLeft(s[1..]) else s
  }

  function TrimRight(s: string): string {
    if s != "" && IsSpace(s[|s| - 1]) then TrimRight(s[..|s| - 1]) else s
  }

  function TrimSpace(s: string): string {
    TrimRight(TrimLeft(s))
  }

  predicate Matches(candidate: string, etag: string) {
    TrimSpace(candidate) == "*" || TrimSpace(candidate) == etag
  }

  predicate ETagMatches(header: string, etag: string) {
    exists i :: 0 <= i < |Split(header, ',')| && Matches(Split(header, ',')[i], etag)
  }

  /** `etagMatches`: the first matching candidate decides. */
  method FindMatch(headerValue: string, currentETag: string) returns (found: bool)
    ensures found == ETagMatches(headerValue, currentETag)
  {
    var candidates := Split(headerValue, ',');
    for i := 0 to |candidates|
      invariant forall j :: 0 <= j < i ==> !Matches(candidates[j], currentETag)
    {
      var candidate := TrimSpace(candidates[i]);
      if candidate == "*" || candidate == currentETag {
        assert Matches(candidates[i], currentETag);
        return true;
      }
    }
    return false;
  }

  /** A version names a bundle by its digest. */
  predicate IsVersion(v: string) {
    && StartsWith(v, "sha256:") && |v| == 71
    && forall i :: 7 <= i < 71 ==> '0' <= v[i] <= '9' || 'a' <= v[i] <= 'f'
  }

  /** Two numerals a byte. */
  function Hex(bytes: seq<nat>): string
    requires forall i :: 0 <= i < |bytes| ==> bytes[i] < 256
  {
    if bytes == [] then "" else [HexNumeral(bytes[0] / 16), HexNumeral(bytes[0] % 16)] + Hex(bytes[1..])
  }

  lemma {:induction false} HexPlain(bytes: seq<nat>)
    requires forall i :: 0 <= i < |bytes| ==> bytes[i] < 256
    ensures |Hex(bytes)| == 2 * |bytes| && forall i :: 0 <= i < |Hex(bytes)| ==> IsHexNumeral(Hex(bytes)[i])
  {
    hide IsHexNumeral, HexNumeral;
    if bytes != [] {
      HexNumeralIs(bytes[0] / 16);
      HexNumeralIs(bytes[0] % 16);
      HexPlain(bytes[1..]);
    }
  }

  /** The text names the thirty-two bytes of a digest. */
  ghost predicate NamesDigest(v: string, digest: seq<nat>) {
    && |digest| == 32 && (forall i :: 0 <= i < 32 ==> digest[i] < 256)
    && v == "sha256:" + Hex(digest)
  }

  lemma HexByte(byte: nat, rest: seq<nat>)
    requires byte < 256 && forall i :: 0 <= i < |rest| ==> rest[i] < 256
    ensures Hex([byte] + rest) == [HexNumeral(byte / 16), HexNumeral(byte % 16)] + Hex(rest)
  {
    hide HexNumeral;
    assert ([byte] + rest)[1..] == rest;
  }

  lemma {:induction false} HexOf(s: string) returns (bytes: seq<nat>)
    requires |s| % 2 == 0 && forall i :: 0 <= i < |s| ==> IsHexNumeral(s[i])
    ensures 2 * |bytes| == |s| && (forall i :: 0 <= i < |bytes| ==> bytes[i] < 256) && Hex(bytes) == s
  {
    hide IsHexNumeral, HexNumeral, Hex;
    if s == [] {
      bytes := [];
      EmptyHex();
    } else {
      var rest := HexOf(s[2..]);
      var high := HexNumeralOf(s[0]);
      var low := HexNumeralOf(s[1]);
      HexByte(16 * high + low, rest);
      bytes := [16 * high + low] + rest;
      assert s == [s[0], s[1]] + s[2..];
    }
  }

  lemma EmptyHex()
    ensures Hex([]) == ""
  {
  }

  /** The versions are the digests of thirty-two bytes, in hexadecimal. */
  lemma VersionIff(v: string)
    ensures IsVersion(v) <==> exists digest :: NamesDigest(v, digest)
  {
    hide IsHexNumeral, Hex;
    if IsVersion(v) {
      forall i | 0 <= i < 64 ensures IsHexNumeral(v[7..][i]) {
        HexIff(v[7 + i]);
      }
      var digest := HexOf(v[7..]);
      assert v == v[..7] + v[7..] && v[..7] == "sha256:";
      assert NamesDigest(v, digest);
    }
    if digest: seq<nat> :| NamesDigest(v, digest) {
      HexPlain(digest);
      forall i | 7 <= i < 71 ensures '0' <= v[i] <= '9' || 'a' <= v[i] <= 'f' {
        assert v[i] == Hex(digest)[i - 7];
        HexIff(v[i]);
      }
    }
  }

  /** `%q` of a version, which holds nothing to escape. */
  function Quoted(version: string): string {
    "\"" + version + "\""
  }

  lemma {:induction false} SplitWhole(s: string, sep: char)
    requires sep !in s
    ensures Split(s, sep) == [s]
  {
    if s != "" {
      assert s[0] in s;
      SplitWhole(s[1..], sep);
      assert [s[0]] + s[1..] == s;
    }
  }

  lemma VersionPlain(v: string)
    requires IsVersion(v)
    ensures ',' !in Quoted(v)
  {
    assert v[..7] == "sha256:";
    forall i | 0 <= i < |v| ensures v[i] != ',' {
      assert i < 7 ==> v[i] == v[..7][i];
    }
  }

  lemma QuotedTrims(v: string)
    ensures TrimSpace(Quoted(v)) == Quoted(v) != "*"
  {
    assert Quoted(v)[0] == '"' && Quoted(v)[|v| + 1] == '"';
  }

  /** The header a request carries: the tag of the version held, or none. */
  function HeaderOf(held: Option<string>): string {
    if held.Some? then Quoted(held.value) else ""
  }

  /** The header matches exactly when the version held is the current one. */
  lemma TagMatchesIff(held: Option<string>, current: string)
    requires held.Some? ==> IsVersion(held.value)
    ensures ETagMatches(HeaderOf(held), Quoted(current)) <==> held == Some(current)
  {
    if held.Some? {
      var v := held.value;
      VersionPlain(v);
      SplitWhole(Quoted(v), ',');
      QuotedTrims(v);
      assert Quoted(v) == Quoted(current) ==> v == current by {
        assert Quoted(v)[1..|v| + 1] == v && Quoted(current)[1..|current| + 1] == current;
      }
      assert v == current ==> Matches([Quoted(v)][0], Quoted(current));
    } else {
      assert Split("", ',') == [""];
      assert TrimSpace("") == "";
    }
  }

  ghost predicate Blank(s: string) {
    forall i :: 0 <= i < |s| ==> s[i] == ' ' || s[i] == '\t'
  }

  lemma {:induction false} LeftTrimmed(before: string, rest: string)
    requires Blank(before) && (rest != "" ==> !IsSpace(rest[0]))
    ensures TrimLeft(before + rest) == rest
  {
    if before == "" {
      assert before + rest == rest;
    } else {
      assert (before + rest)[1..] == before[1..] + rest;
      LeftTrimmed(before[1..], rest);
    }
  }

  lemma {:induction false} RightTrimmed(rest: string, after: string)
    requires Blank(after) && (rest != "" ==> !IsSpace(rest[|rest| - 1]))
    ensures TrimRight(rest + after) == rest
  {
    if after == "" {
      assert rest + after == rest;
    } else {
      var text := rest + after;
      assert text[..|text| - 1] == rest + after[..|after| - 1];
      RightTrimmed(rest, after[..|after| - 1]);
    }
  }

  /** One candidate of a header, with blanks around it. */
  datatype Listed = Listed(before: string, candidate: string, after: string)

  ghost predicate WellListed(l: Listed) {
    Blank(l.before) && Blank(l.after) && (l.candidate == "*" || exists v :: IsVersion(v) && l.candidate == Quoted(v))
  }

  function PiecesOf(listed: seq<Listed>): (pieces: seq<string>)
    ensures |pieces| == |listed|
    ensures forall i :: 0 <= i < |listed| ==> pieces[i] == listed[i].before + listed[i].candidate + listed[i].after
  {
    seq(|listed|, i requires 0 <= i < |listed| => listed[i].before + listed[i].candidate + listed[i].after)
  }

  lemma ListedTrims(l: Listed)
    requires WellListed(l)
    ensures TrimSpace(l.before + l.candidate + l.after) == l.candidate
    ensures ',' !in l.before + l.candidate + l.after
  {
    hide IsVersion;
    if v :| IsVersion(v) && l.candidate == Quoted(v) {
      VersionPlain(v);
    }
    assert l.candidate != "" && !IsSpace(l.candidate[0]) && !IsSpace(l.candidate[|l.candidate| - 1]);
    assert l.before + l.candidate + l.after == l.before + (l.candidate + l.after);
    LeftTrimmed(l.before, l.candidate + l.after);
    RightTrimmed(l.candidate, l.after);
  }

  /** A header that lists tags, blanks and all, matches exactly when one of them is
      the wildcard or the current tag. */
  lemma ListMatchesIff(listed: seq<Listed>, current: string)
    requires listed != [] && forall i :: 0 <= i < |listed| ==> WellListed(listed[i])
    ensures ETagMatches(Join(PiecesOf(listed), ","), "\"" + current + "\"") <==>
      exists i :: 0 <= i < |listed| && (listed[i].candidate == "*" || listed[i].candidate == "\"" + current + "\"")
  {
    hide TrimSpace, WellListed;
    var pieces := PiecesOf(listed);
    forall i | 0 <= i < |listed|
      ensures TrimSpace(pieces[i]) == listed[i].candidate && ',' !in pieces[i]
    {
      ListedTrims(listed[i]);
    }
    SplitJoin(pieces, ',');
    assert forall i :: 0 <= i < |listed| ==> (Matches(pieces[i], Quoted(current)) <==>
      listed[i].candidate == "*" || listed[i].candidate == Quoted(current));
    if i :| 0 <= i < |listed| && (listed[i].candidate == "*" || listed[i].candidate == Quoted(current)) {
      assert Matches(Split(Join(pieces, ","), ',')[i], Quoted(current));
    }
  }

  // ----- one exchange -----

  datatype Response = Response(status: int, json: bool, verified: Option<string>, etag: Option<string>)

  /** The handler's answer, read off the publication that is current when it runs. */
  function Served(history: seq<string>, ifNoneMatch: Option<string>): Response {
    if history == [] then Response(503, true, None, None)
    else
      var version := history[|history| - 1];
      var header := if ifNoneMatch.Some? then ifNoneMatch.value else "";
      if ETagMatches(header, Quoted(version)) then Response(304, false, None, Some(Quoted(version)))
      else Response(200, true, Some(version), Some(Quoted(version)))
  }

  datatype Snapshot = Snapshot(version: string, etag: string)

  datatype Outcome = Updated | Unchanged | Failed

  /** What the edge makes of a response, or of none; verification is an abstract
      step that yields the version it vouches for. */
  function Judged(snapshot: Option<Snapshot>, response: Option<Response>): (Option<Snapshot>, Outcome) {
    match response
    case None => (snapshot, Failed)
    case Some(r) =>
      if r.status == 304 then (snapshot, if snapshot.None? then Failed else Unchanged)
      else if !(200 <= r.status <= 299) || !r.json || r.verified.None? then (snapshot, Failed)
      else if r.etag.None? || TrimSpace(r.etag.value) == "" then (snapshot, Failed)
      else if r.etag.value != Quoted(r.verified.value) then (snapshot, Failed)
      else (Some(Snapshot(r.verified.value, r.etag.value)), Updated)
  }

  /** A verified bundle: a success status, a JSON body that verifies, and a tag that
      is the quoted version and nothing else. */
  ghost predicate Vouched(response: Option<Response>, version: string) {
    && response.Some? && 200 <= response.value.status <= 299 && response.value.json
    && response.value.verified == Some(version) && response.value.etag == Some("\"" + version + "\"")
  }

  /** Only a vouched-for version replaces the snapshot, only a 304 for a snapshot
      held leaves it unchanged, and everything else fails. */
  lemma JudgedMeans(snapshot: Option<Snapshot>, response: Option<Response>)
    ensures var (after, outcome) := Judged(snapshot, response);
      && (outcome == Updated <==> exists v :: Vouched(response, v))
      && (forall v :: Vouched(response, v) ==> after == Some(Snapshot(v, "\"" + v + "\"")))
      && (outcome == Unchanged <==> response.Some? && response.value.status == 304 && snapshot.Some?)
      && (outcome != Updated ==> after == snapshot)
  {
    hide TrimSpace;
    if response.Some? && response.value.verified.Some? {
      var v := response.value.verified.value;
      QuotedTrims(v);
      assert Judged(snapshot, response).1 == Updated ==> Vouched(response, v);
    }
  }

  /** A refresh under way: the tag it sent, and how it ended. */
  datatype Flight = Flight(sent: Option<string>, outcome: Option<Outcome>)

  function TagOf(snapshot: Option<Snapshot>): Option<string> {
    if snapshot.Some? then Some(snapshot.value.etag) else None
  }

  /** The refresh under way, or a new one that sends the tag held now. */
  function Begun(snapshot: Option<Snapshot>, flight: Option<Flight>): Flight {
    if flight.Some? then flight.value else Flight(TagOf(snapshot), None)
  }

  // ----- both ends -----

  /** The control plane's publications, the edge's two fields, and what a proof
      needs to remember: how many publications there were when the refresh
      started, the position its request was served at, and the positions the
      edge's snapshot was confirmed against. */
  datatype State = State(
    history: seq<string>,
    snapshot: Option<Snapshot>,
    flight: Option<Flight>,
    started: nat,
    served: Option<(nat, Response)>,
    confirmed: seq<nat>)

  const START := State([], None, None, 0, None, [])

  datatype Step =
    | Publish(version: string)
    | Refresh
    | Serve
    | Deliver
    | Lose(response: Option<Response>)
    | Clear

  predicate Pending(s: State) {
    s.flight.Some? && s.flight.value.outcome.None?
  }

  /** `Lose` covers every fetch that fails, whether nothing arrives or something damaged does. */
  predicate Enabled(s: State, step: Step) {
    match step
    case Publish(version) => IsVersion(version)
    case Refresh => true
    case Serve => Pending(s) && s.served.None?
    case Deliver => Pending(s) && s.served.Some?
    case Lose(response) => Pending(s) && Judged(s.snapshot, response).1 == Failed
    case Clear => s.flight.Some? && s.flight.value.outcome.Some?
  }

  function Completed(s: State, response: Option<Response>): State
    requires Pending(s)
  {
    var (snapshot, outcome) := Judged(s.snapshot, response);
    s.(snapshot := snapshot, flight := Some(s.flight.value.(outcome := Some(outcome))))
  }

  function Next(s: State, step: Step): State
    requires Enabled(s, step)
  {
    match step
    case Publish(version) => s.(history := s.history + [version])
    case Refresh =>
      if s.flight.Some? then s
      else s.(flight := Some(Begun(s.snapshot, s.flight)), started := |s.history|, served := None)
    case Serve => s.(served := Some((|s.history|, Served(s.history, s.flight.value.sent))))
    case Deliver =>
      var t := Completed(s, Some(s.served.value.1));
      if t.flight.value.outcome == Some(Failed) || s.served.value.0 == 0 then t
      else t.(confirmed := s.confirmed + [s.served.value.0 - 1])
    case Lose(response) => Completed(s, response)
    case Clear => s.(flight := None)
  }

  ghost predicate Reaches(s: State, steps: seq<Step>, t: State)
    decreases |steps|
  {
    if steps == [] then s == t
    else Enabled(s, steps[0]) && Reaches(Next(s, steps[0]), steps[1..], t)
  }

  /** The snapshot is what was published at a position. */
  predicate Holds(s: State, position: nat) {
    position < |s.history| && s.snapshot == Some(Snapshot(s.history[position], Quoted(s.history[position])))
  }

  ghost predicate InOrder(positions: seq<nat>) {
    forall i, j :: 0 <= i < j < |positions| ==> positions[i] <= positions[j]
  }

  function Last(positions: seq<nat>): nat
    requires positions != []
  {
    positions[|positions| - 1]
  }

  ghost predicate Inv(s: State) {
    && (forall i :: 0 <= i < |s.history| ==> IsVersion(s.history[i]))
    && InOrder(s.confirmed)
    && (s.confirmed == [] <==> s.snapshot == None)
    && (s.confirmed != [] ==> Holds(s, Last(s.confirmed)))
    && s.started <= |s.history|
    && (Pending(s) ==> InvPending(s))
    && (Succeeded(s) ==>
          && s.served.Some? && s.started <= s.served.value.0
          && s.confirmed != [] && Last(s.confirmed) + 1 == s.served.value.0)
  }

  /** The refresh under way has settled, and not by failing. */
  predicate Succeeded(s: State) {
    s.flight.Some? && s.flight.value.outcome.Some? && s.flight.value.outcome != Some(Failed)
  }

  /** While a refresh is pending the snapshot is the one its tag names, and the
      answer is no older than the start. */
  ghost predicate InvPending(s: State)
    requires Pending(s)
  {
    && s.flight.value.sent == TagOf(s.snapshot)
    && (s.confirmed != [] ==> Last(s.confirmed) < s.started)
    && (s.served.Some? ==>
          && s.started <= s.served.value.0 <= |s.history|
          && s.served.value.1 == Served(s.history[..s.served.value.0], s.flight.value.sent))
  }

  /** An honest answer either confirms the snapshot or replaces it by the publication served. */
  lemma ServedJudged(history: seq<string>, snapshot: Option<Snapshot>)
    requires forall i :: 0 <= i < |history| ==> IsVersion(history[i])
    requires snapshot.Some? ==> IsVersion(snapshot.value.version) && snapshot.value.etag == Quoted(snapshot.value.version)
    ensures var (after, outcome) := Judged(snapshot, Some(Served(history, TagOf(snapshot))));
      && (outcome == Failed <==> history == [])
      && (outcome == Failed ==> after == snapshot)
      && (history != [] ==> after == Some(Snapshot(history[|history| - 1], Quoted(history[|history| - 1]))))
  {
    hide ETagMatches, TrimSpace, IsVersion;
    if history != [] {
      var version := history[|history| - 1];
      QuotedTrims(version);
      TagMatchesIff(if snapshot.Some? then Some(snapshot.value.version) else None, version);
    }
  }

  lemma DeliverKeeps(s: State)
    requires Inv(s) && Enabled(s, Deliver)
    ensures Inv(Next(s, Deliver))
  {
    hide ETagMatches, IsVersion, Judged, Served;
    var n := s.served.value.0;
    ServedJudged(s.history[..n], s.snapshot);
  }

  lemma StepKeeps(s: State, step: Step)
    requires Inv(s) && Enabled(s, step)
    ensures Inv(Next(s, step))
  {
    hide ETagMatches, IsVersion, Judged;
    match step
    case Publish(version) => PublishKeeps(s, version);
    case Deliver => DeliverKeeps(s);
    case Serve => assert s.history[..|s.history|] == s.history;
    case Lose(response) => FailureHarmless(s.snapshot, response);
    case Refresh =>
    case Clear =>
  }

  lemma PublishKeeps(s: State, version: string)
    requires Inv(s) && IsVersion(version)
    ensures Inv(Next(s, Publish(version)))
  {
    hide ETagMatches, IsVersion, Judged, Served;
    if s.served.Some? && s.served.value.0 <= |s.history| {
      assert (s.history + [version])[..s.served.value.0] == s.history[..s.served.value.0];
    }
  }

  /** A failed refresh changes nothing. */
  lemma FailureHarmless(snapshot: Option<Snapshot>, response: Option<Response>)
    ensures Judged(snapshot, response).1 != Updated ==> Judged(snapshot, response).0 == snapshot
  {
  }

  lemma {:induction false} RunKeeps(s: State, steps: seq<Step>, t: State)
    requires Inv(s) && Reaches(s, steps, t)
    ensures Inv(t)
    decreases |steps|
  {
    hide Inv, Next;
    if steps != [] {
      StepKeeps(s, steps[0]);
      RunKeeps(Next(s, steps[0]), steps[1..], t);
    }
  }

  lemma StartInv()
    ensures Inv(START)
  {
  }

  /** In every run of publications, refreshes, answers and failures: the
      snapshots the edge takes correspond to publication positions that never
      decrease, and the one it holds is the content at the last of them. */
  lemma EdgeNeverGoesBack(steps: seq<Step>, s: State)
    requires Reaches(START, steps, s)
    ensures InOrder(s.confirmed)
    ensures s.snapshot.Some? <==> s.confirmed != []
    ensures s.confirmed != [] ==> Holds(s, Last(s.confirmed))
  {
    StartInv();
    RunKeeps(START, steps, s);
  }

  /** A refresh that succeeds leaves the edge on a publication no older than the
      one current when it started; if nothing was published since it started,
      on the control plane's current version. */
  lemma SuccessIsCurrent(steps: seq<Step>, s: State)
    requires Reaches(START, steps, s)
    requires Succeeded(s)
    ensures s.confirmed != [] && s.started <= Last(s.confirmed) + 1 && Holds(s, Last(s.confirmed))
    ensures s.started == |s.history| ==> s.snapshot.value.version == s.history[|s.history| - 1]
  {
    StartInv();
    RunKeeps(START, steps, s);
  }

  /** Only a refresh that succeeds moves the edge: publications, requests,
      answers on their way, failures of every kind and clearing leave the snapshot
      and the positions it was confirmed against alone, and a success confirms
      exactly the publication that was current when the request was served. */
  lemma OnlySuccessMoves(steps: seq<Step>, s: State, step: Step)
    requires Reaches(START, steps, s) && Enabled(s, step)
    ensures var t := Next(s, step);
      var succeeded := step == Deliver && t.flight.value.outcome != Some(Failed);
      && (!succeeded ==> t.snapshot == s.snapshot && t.confirmed == s.confirmed)
      && (succeeded ==>
            && s.served.value.0 > 0 && t.confirmed == s.confirmed + [s.served.value.0 - 1]
            && Holds(t, s.served.value.0 - 1))
  {
    hide ETagMatches, IsVersion, Judged, Served;
    StartInv();
    RunKeeps(START, steps, s);
    if step == Deliver {
      DeliverKeeps(s);
      ServedJudged(s.history[..s.served.value.0], s.snapshot);
    } else if step.Lose? {
      FailureHarmless(s.snapshot, step.response);
    }
  }

  lemma RunOne(s: State, step: Step, steps: seq<Step>, t: State)
    requires Enabled(s, step) && Reaches(Next(s, step), steps, t)
    ensures Reaches(s, [step] + steps, t)
  {
    assert ([step] + steps)[1..] == steps;
  }

  // ----- what an announcement brings about -----

  /** The refresh under way was answered before a publication. */
  predicate AnsweredBefore(s: State, position: nat) {
    s.flight.Some? && s.served.Some? && s.served.value.0 <= position
  }

  /** A later state still has the refresh that an announcement found, or started,
      when there were `n` publications and its answer stood at `answer`. */
  predicate SameFlight(n: nat, answer: Option<(nat, Response)>, u: State) {
    && u.flight.Some? && n <= |u.history|
    && (answer.Some? ==> u.served == answer)
    && (answer.None? && u.served.Some? ==> n <= u.served.value.0)
  }

  lemma {:induction false} FlightGoesOn(n: nat, answer: Option<(nat, Response)>, t: State, steps: seq<Step>, u: State)
    requires SameFlight(n, answer, t) && Reaches(t, steps, u) && Clear !in steps
    ensures SameFlight(n, answer, u)
    decreases |steps|
  {
    hide Served, Judged, IsVersion;
    if steps != [] {
      assert steps[0] in steps;
      FlightGoesOn(n, answer, Next(t, steps[0]), steps[1..], u);
    }
  }

  /** Whatever else happens meanwhile, a refresh asked for by an announcement,
      if it succeeds, leaves the edge on the announced publication or a later one
      exactly when it did not join a refresh answered before that publication. */
  lemma AnnouncedRefreshIff(steps: seq<Step>, s: State, position: nat, later: seq<Step>, u: State)
    requires Reaches(START, steps, s) && position < |s.history|
    requires Reaches(Next(s, Refresh), later, u) && Clear !in later && Succeeded(u)
    ensures u.confirmed != [] && Holds(u, Last(u.confirmed))
    ensures Last(u.confirmed) >= position <==> !AnsweredBefore(s, position)
  {
    hide Served, Judged, IsVersion, InOrder, InvPending;
    StartInv();
    RunKeeps(START, steps, s);
    var t := Next(s, Refresh);
    StepKeeps(s, Refresh);
    RunKeeps(t, later, u);
    FlightGoesOn(|s.history|, t.served, t, later, u);
  }

  /** So an announcement alone does not bring the edge up to date: here the newer
      version is published while an answered refresh is under way, the refresh it
      asks for joins that one, which succeeds, and the edge is left on the older. */
  lemma AnnouncementMayLag(older: string, newer: string) returns (steps: seq<Step>, s: State, u: State)
    requires IsVersion(older) && IsVersion(newer) && older != newer
    ensures Reaches(START, steps, s) && s.history == [older, newer]
    ensures Pending(s) && AnsweredBefore(s, 1) && Next(s, Refresh) == s
    ensures Reaches(s, [Refresh] + ([Deliver] + []), u) && u.flight == Some(Flight(None, Some(Updated)))
    ensures u.history == s.history && u.snapshot == Some(Snapshot(older, Quoted(older)))
  {
    hide ETagMatches, IsVersion;
    var s1 := Next(START, Publish(older));
    var s2 := Next(s1, Refresh);
    var s3 := Next(s2, Serve);
    s := Next(s3, Publish(newer));
    TagMatchesIff(None, older);
    QuotedTrims(older);
    u := Next(s, Deliver);
    RunOne(s, Deliver, [], u);
    RunOne(s, Refresh, [Deliver] + [], u);
    RunOne(s3, Publish(newer), [], s);
    RunOne(s2, Serve, [Publish(newer)] + [], s);
    var tail := [Serve] + ([Publish(newer)] + []);
    RunOne(s1, Refresh, tail, s);
    RunOne(START, Publish(older), [Refresh] + tail, s);
    steps := [Publish(older)] + ([Refresh] + tail);
  }

  /** A request is conditional: it is answered "not modified" exactly when the edge
      holds the version current when it is served, with the whole bundle when it does
      not, and with an error before anything was published. */
  lemma NotModifiedIff(steps: seq<Step>, s: State)
    requires Reaches(START, steps, s) && Enabled(s, Serve)
    ensures var answer := Next(s, Serve).served.value.1;
      && (s.history == [] ==> answer.status == 503)
      && (s.history != [] ==>
            var current := s.history[|s.history| - 1];
            && (answer.status == 304 <==> s.snapshot.Some? && s.snapshot.value.version == current)
            && (answer.status != 304 ==> answer.status == 200 && Vouched(Some(answer), current)))
  {
    hide ETagMatches, IsVersion;
    StartInv();
    RunKeeps(START, steps, s);
    if s.history != [] {
      TagMatchesIff(if s.snapshot.Some? then Some(s.snapshot.value.version) else None, s.history[|s.history| - 1]);
    }
  }

  /** The next poll repairs any lag: with no refresh under way, one that is
      answered leaves the edge on the control plane's current version. */
  lemma NextPollRepairs(steps: seq<Step>, s: State)
    requires Reaches(START, steps, s) && s.flight == None && s.history != []
    ensures var asked := Next(Next(s, Refresh), Serve);
      Enabled(asked, Deliver) && Next(asked, Deliver).snapshot.value.version == s.history[|s.history| - 1]
  {
    hide ETagMatches, IsVersion, Judged, Served;
    StartInv();
    RunKeeps(START, steps, s);
    ServedJudged(s.history, s.snapshot);
  }

  // ----- the client object -----

  /** The edge's client. Its ghost fields are the rest of the machine's state, so
      that each method is one of the machine's steps. */
  class ConfigurationClient {
    var snapshot: Option<Snapshot>
    var refreshInFlight: Option<Flight>
    ghost var history: seq<string>
    ghost var started: nat
    ghost var served: Option<(nat, Response)>
    ghost var confirmed: seq<nat>

    ghost function View(): State
      reads this
    {
      State(history, snapshot, refreshInFlight, started, served, confirmed)
    }

    constructor ()
      ensures View() == START
    {
      snapshot, refreshInFlight := None, None;
      history, started, served, confirmed := [], 0, None, [];
    }

    /** Publishing and serving happen at the control plane. */
    ghost method Published(version: string)
      requires IsVersion(version)
      modifies `history
      ensures View() == Next(old(View()), Publish(version))
    {
      history := history + [version];
    }

    ghost method RequestServed()
      requires Enabled(View(), Serve)
      modifies `served
      ensures View() == Next(old(View()), Serve)
    {
      served := Some((|history|, Served(history, refreshInFlight.value.sent)));
    }

    /** Starts a refresh, or joins the one under way. */
    method Refresh() returns (joined: bool)
      modifies this
      ensures joined == old(refreshInFlight).Some? && snapshot == old(snapshot)
      ensures refreshInFlight == Some(Begun(snapshot, old(refreshInFlight)))
      ensures !joined ==>
        refreshInFlight == Some(Flight(if snapshot.Some? then Some(snapshot.value.etag) else None, None))
      ensures View() == Next(old(View()), Step.Refresh)
    {
      if refreshInFlight.Some? {
        return true;
      }
      refreshInFlight := Some(Flight(TagOf(snapshot), None));
      started, served := |history|, None;
      return false;
    }

    /** The rest of `#refreshOnce`, once the fetch has settled. Whatever arrives is
        judged; the answer served makes it a delivery, and anything that fails a loss. */
    method Complete(response: Option<Response>)
      requires refreshInFlight.Some? && refreshInFlight.value.outcome.None?
      modifies this
      ensures snapshot == Judged(old(snapshot), response).0
      ensures refreshInFlight == Some(old(refreshInFlight).value.(outcome := Some(Judged(old(snapshot), response).1)))
      ensures refreshInFlight.value.outcome == Some(Updated) <==> exists v :: Vouched(response, v)
      ensures forall v :: Vouched(response, v) ==> snapshot == Some(Snapshot(v, "\"" + v + "\""))
      ensures refreshInFlight.value.outcome == Some(Unchanged) <==>
        response.Some? && response.value.status == 304 && old(snapshot).Some?
      ensures refreshInFlight.value.outcome != Some(Updated) ==> snapshot == old(snapshot)
      ensures old(served).Some? && response == Some(old(served).value.1) ==> View() == Next(old(View()), Deliver)
      ensures Judged(old(snapshot), response).1 == Failed ==> View() == Next(old(View()), Lose(response))
    {
      hide TrimSpace, Vouched;
      JudgedMeans(snapshot, response);
      var outcome := Failed;
      if response.Some? {
        var r := response.value;
        if r.status == 304 {
          if snapshot.Some? {
            outcome := Unchanged;
          }
        } else if 200 <= r.status <= 299 && r.json && r.verified.Some? {
          if r.etag.Some? && TrimSpace(r.etag.value) != "" && r.etag.value == Quoted(r.verified.value) {
            snapshot := Some(Snapshot(r.verified.value, r.etag.value));
            outcome := Updated;
          }
        }
      }
      refreshInFlight := Some(refreshInFlight.value.(outcome := Some(outcome)));
      if outcome != Failed && served.Some? && served.value.0 > 0 {
        confirmed := confirmed + [served.value.0 - 1];
      }
    }

    /** The settled refresh makes way for the next. */
    method Clear()
      requires refreshInFlight.Some? && refreshInFlight.value.outcome.Some?
      modifies `refreshInFlight
      ensures View() == Next(old(View()), Step.Clear)
    {
      refreshInFlight := None;
    }
  }
}
