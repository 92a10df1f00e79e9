/**
 Run manifests: reading one from a parsed JSON value, printing one, and the timestamps they carry.
 The calendar is a parameter; a timestamp is canonical when printing the instant it denotes gives
 it back.
 */
module RunManifest {
  import opened Wrappers
  import opened Text
  import opened Json

  /** Date.parse and Date.prototype.toISOString, on integral milliseconds. */
  datatype Dates = Dates(parse: Str -> Option<int>, iso: int -> Str)

  predicate InDateRange(ms: int) {
    -8640000000000000 <= ms <= 8640000000000000
  }

  /** Dates reach a hundred million days to either side of the epoch. */
  lemma RangeInDays(ms: int)
    ensures InDateRange(ms) <==> -100_000_000 * 24 * 60 * 60 * 1000 <= ms <= 100_000_000 * 24 * 60 * 60 * 1000
  {
  }

  /** Printed instants parse back. */
  ghost predicate Faithful(dates: Dates) {
    forall ms | InDateRange(ms) :: dates.parse(dates.iso(ms)) == Some(ms)
  }

  function CanonicalMilliseconds(dates: Dates, text: Str): Option<int> {
    match dates.parse(text)
    case None => None
    case Some(ms) => if dates.iso(ms) == text then Some(ms) else None
  }

  lemma PrintedIsCanonical(dates: Dates, ms: int)
    requires Faithful(dates) && InDateRange(ms)
    ensures CanonicalMilliseconds(dates, dates.iso(ms)) == Some(ms)
  {
  }

  datatype Manifest =
    | Active(runId: Str, startedAt: Str)
    | Completed(runId: Str, startedAt: Str, completedAt: Str)

  /** Canonical timestamps, and completion no earlier than the start. */
  predicate IsManifest(dates: Dates, m: Manifest) {
    && CanonicalMilliseconds(dates, m.startedAt).Some?
    && (m.Completed? ==>
          && CanonicalMilliseconds(dates, m.completedAt).Some?
          && CanonicalMilliseconds(dates, m.completedAt).value >= CanonicalMilliseconds(dates, m.startedAt).value)
  }

  function Member(v: Json, name: Str): Option<Json> {
    if v.Object? && name in v.members then Some(v.members[name]) else None
  }

  function TextMember(v: Json, name: Str): Option<Str> {
    match Member(v, name)
    case Some(String(text)) => Some(text)
    case _ => None
  }

  /** The branches of parseManifest after JSON.parse. */
  function ParseManifest(dates: Dates, v: Json): Option<Manifest> {
    var runId := TextMember(v, Lit("run_id"));
    var startedAt := TextMember(v, Lit("started_at"));
    var state := TextMember(v, Lit("state"));
    if !v.Object? || Member(v, Lit("version")) != Some(Num(1.0)) || runId.None? then None
    else if startedAt.None? || CanonicalMilliseconds(dates, startedAt.value).None? then None
    else if state == Some(Lit("active")) then
      if Member(v, Lit("completed_at")) != Some(Null) then None else Some(Active(runId.value, startedAt.value))
    else
      var completedAt := TextMember(v, Lit("completed_at"));
      if state == Some(Lit("completed")) && completedAt.Some? && CanonicalMilliseconds(dates, completedAt.value).Some? then
        if CanonicalMilliseconds(dates, completedAt.value).value < CanonicalMilliseconds(dates, startedAt.value).value then None
        else Some(Completed(runId.value, startedAt.value, completedAt.value))
      else None
  }

  function SerializeManifest(m: Manifest): Json {
    Object(map[
      Lit("version") := Num(1.0),
      Lit("run_id") := String(m.runId),
      Lit("state") := String(if m.Active? then Lit("active") else Lit("completed")),
      Lit("started_at") := String(m.startedAt),
      Lit("completed_at") := if m.Active? then Null else String(m.completedAt)])
  }

  /** The value is an object with at least the members the manifest is printed with. */
  predicate Carries(v: Json, m: Manifest) {
    v.Object? && forall name | name in SerializeManifest(m).members :: Member(v, name) == Some(SerializeManifest(m).members[name])
  }

  /** A value is read as a manifest exactly when it carries that manifest and the manifest is sound. */
  lemma ParseManifestExactly(dates: Dates, v: Json, m: Manifest)
    ensures ParseManifest(dates, v) == Some(m) <==> Carries(v, m) && IsManifest(dates, m)
  {
    hide CanonicalMilliseconds;
    var members := SerializeManifest(m).members;
    assert members.Keys == {Lit("version"), Lit("run_id"), Lit("state"), Lit("started_at"), Lit("completed_at")};
    if Carries(v, m) {
      assert forall name | name in members.Keys :: Member(v, name) == Some(members[name]);
      assert Lit("version") in members.Keys && Lit("run_id") in members.Keys && Lit("state") in members.Keys;
      assert Lit("started_at") in members.Keys && Lit("completed_at") in members.Keys;
    }
  }

  /** Printed manifests are read back. */
  lemma ManifestRoundTrip(dates: Dates, m: Manifest)
    ensures ParseManifest(dates, SerializeManifest(m)) == Some(m) <==> IsManifest(dates, m)
  {
    hide SerializeManifest, IsManifest;
    ParseManifestExactly(dates, SerializeManifest(m), m);
    Printed(m);
  }

  lemma Printed(m: Manifest)
    ensures SerializeManifest(m).Object? && Carries(SerializeManifest(m), m)
  {
  }

  /** The manifests written at creation and at completion: completion is never before the start. */
  lemma WrittenManifestsAreSound(dates: Dates, runId: Str, started: int, now: int)
    requires Faithful(dates) && InDateRange(started) && InDateRange(now)
    ensures var completed := if now > started then now else started;
      && IsManifest(dates, Active(runId, dates.iso(started)))
      && IsManifest(dates, Completed(runId, dates.iso(started), dates.iso(completed)))
  {
    PrintedIsCanonical(dates, started);
    PrintedIsCanonical(dates, now);
  }
}
