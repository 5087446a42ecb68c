/** The routes that edit an event: the diffs they accept, what they store and what they announce
    (server/routes/game.go, server/routes/initiative.go). A diff here holds the keys a route knows. */
module EditRoutes {
  import opened Events

  const INT64_MIN := -0x8000_0000_0000_0000
  const INT64_MAX := 0x7FFF_FFFF_FFFF_FFFF

  predicate FitsInt64(n: int) {
    INT64_MIN <= n <= INT64_MAX
  }

  function PowerOfTen(n: nat): (p: nat)
    ensures p > 0
  {
    if n == 0 then 1 else 10 * PowerOfTen(n - 1)
  }

  /** The whole part of a decimal, towards zero. */
  function Truncated(d: Decimal): int {
    if d.digits >= 0 then d.digits / PowerOfTen(d.places) else -(-d.digits / PowerOfTen(d.places))
  }

  /** Go's conversion of a number to int64 drops the fraction. What it makes of a number out of range is
      left to the implementation; this is the value amd64 gives. */
  function ToInt64(value: Value): (n: int)
    requires value.Num? || value.Frac?
    ensures FitsInt64(n)
  {
    var whole := if value.Num? then value.n else Truncated(value.x);
    if FitsInt64(whole) then whole else INT64_MIN
  }

  /** The types and ranges the routes check. Rolls have a glitchiness, initiative rolls a base and
      whether they were seized; player joins are not edited. */
  predicate Accepts(evt: Event, diff: Diff) {
    && evt.ty != PlayerJoin
    && (forall key | key in diff :: AcceptedKey(evt, key, diff[key]))
  }

  predicate AcceptedKey(evt: Event, key: string, value: Value) {
    || (key == "title" && value.Str?)
    || (key == "glitchy" && evt.ty != InitiativeRoll && (value.Num? || value.Frac?))
    || (key == "base" && evt.ty == InitiativeRoll && value.Num? && -2 <= value.n <= 50)
    || (key == "seized" && evt.ty == InitiativeRoll && value.Flag?)
  }

  /** What is stored of a value: an event keeps its glitchiness as an integer. */
  function StoredValue(key: string, value: Value): Value {
    if key == "glitchy" && (value.Num? || value.Frac?) then Num(ToInt64(value)) else value
  }

  function Stored(diff: Diff): Diff {
    map key | key in diff :: StoredValue(key, diff[key])
  }

  function EditedEvent(evt: Event, diff: Diff, time: int): Event {
    evt.(edit := time, fields := evt.fields + Stored(diff))
  }

  /** The glitchiness, if there is one, is a whole number that fits. */
  predicate Exact(diff: Diff) {
    "glitchy" in diff ==> diff["glitchy"].Num? && FitsInt64(diff["glitchy"].n)
  }

  lemma ValueStoredAsIs(value: Value)
    requires value.Num? || value.Frac?
    ensures StoredValue("glitchy", value) == value <==> value.Num? && FitsInt64(value.n)
  {
  }

  /** A diff is stored as it is announced if and only if it is exact. */
  lemma StoredAsAnnouncedIff(evt: Event, diff: Diff)
    requires Accepts(evt, diff)
    ensures Stored(diff) == diff <==> Exact(diff)
  {
    if "glitchy" in diff {
      ValueStoredAsIs(diff["glitchy"]);
      assert Stored(diff)["glitchy"] == StoredValue("glitchy", diff["glitchy"]);
    }
  }

  /** Adding one of two diffs with the same keys gives the same fields only if they are the same. */
  lemma SameFieldsIff(fields: Diff, a: Diff, b: Diff)
    requires a.Keys == b.Keys
    ensures fields + a == fields + b <==> a == b
  {
    forall key | key in a ensures fields + a == fields + b ==> a[key] == b[key] {
      assert (fields + a)[key] == a[key] && (fields + b)[key] == b[key];
    }
  }

  /** Conversion to 64 bits drops what is behind the point, towards zero: what is dropped is less than one and
      has the sign of the number. */
  lemma TruncationDropsFraction(d: Decimal)
    ensures d.digits >= 0 ==> 0 <= d.digits - Truncated(d) * PowerOfTen(d.places) < PowerOfTen(d.places)
    ensures d.digits < 0 ==> 0 <= Truncated(d) * PowerOfTen(d.places) - d.digits < PowerOfTen(d.places)
  {
  }

  /** Numbers of 64 bits are kept, and no others. */
  lemma Int64Range(n: int)
    ensures StoredValue("glitchy", Num(n)) == Num(n) <==> -9223372036854775808 <= n <= 9223372036854775807
  {
  }

  /** Nothing but the glitchiness is stored otherwise than it is sent. */
  lemma OthersStoredAsSent(diff: Diff, key: string)
    requires key in diff && key != "glitchy"
    ensures key in Stored(diff) && Stored(diff)[key] == diff[key] && Stored(diff).Keys == diff.Keys
  {
  }

  lemma AcceptsOneIff(evt: Event, key: string, value: Value)
    ensures Accepts(evt, map[key := value]) <==> evt.ty != PlayerJoin && AcceptedKey(evt, key, value)
  {
    var diff: Diff := map[key := value];
    assert key in diff && diff[key] == value;
  }

  /** A base is accepted of initiative rolls, from -2 to 50; a glitchiness of rolls alone. */
  lemma AcceptedNumbers(evt: Event, n: int)
    requires evt.ty != PlayerJoin
    ensures Accepts(evt, map["base" := Num(n)]) <==> evt.ty == InitiativeRoll && -2 <= n <= 50
    ensures Accepts(evt, map["glitchy" := Num(n)]) <==> evt.ty != InitiativeRoll
    ensures !Accepts(evt, map["share" := Num(n)]) && !Accepts(evt, map["title" := Num(n)])
  {
    AcceptsOneIff(evt, "base", Num(n));
    AcceptsOneIff(evt, "glitchy", Num(n));
    AcceptsOneIff(evt, "share", Num(n));
    AcceptsOneIff(evt, "title", Num(n));
  }

  /** A title is accepted of every event that may be edited, and whether an initiative was seized of those. */
  lemma AcceptedOthers(evt: Event, text: string, on: bool)
    requires evt.ty != PlayerJoin
    ensures Accepts(evt, map["title" := Str(text)])
    ensures Accepts(evt, map["seized" := Flag(on)]) <==> evt.ty == InitiativeRoll
  {
    AcceptsOneIff(evt, "title", Str(text));
    AcceptsOneIff(evt, "seized", Flag(on));
  }

  function Only(diff: Diff, key: string): Diff
    requires key in diff
  {
    map[key := diff[key]]
  }

  /** A diff is accepted if and only if each of its keys is. */
  lemma AcceptedAll(evt: Event, diff: Diff)
    ensures Accepts(evt, diff) <==> evt.ty != PlayerJoin && forall key | key in diff :: Accepts(evt, Only(diff, key))
  {
    forall key | key in diff ensures Accepts(evt, Only(diff, key)) <==> evt.ty != PlayerJoin && AcceptedKey(evt, key, diff[key]) {
      AcceptsOneIff(evt, key, diff[key]);
    }
  }
}
