/** The position record as a Redis hash of strings: stored at entry, refreshed each poll, loaded by a flip. */
module PositionHash {
  import opened Core

  datatype Field =
    | PosId | SigId | IndexName | SideName | Strike | InstrumentToken | Qty | EntryOrderId | ExitOrderId
    | EntryPrice | EntryTs | ExitPrice | ExitTs | Mode | Intent | SlLevel | TargetLevel
    | TslArmed | TslArmPct | TslTrailPct | TslLevel | PeakPremium | CurrentPremium
    | Pnl | PnlPct | HoldingSeconds | ExitProfile | SumCeAtEntry | SumPeAtEntry | DeltaPcrAtEntry | StrategyVersion

  datatype Kind = KText | KInt | KReal | KFlag | KTime | KProfile

  datatype Profile = Profile(slPct: real, targetPct: real, armPct: real, trailPct: real, maxHoldSec: int)

  datatype Value = Null | Text(s: string) | Whole(n: int) | Number(r: real) | Flag(b: bool) | Time(t: int) | Exits(p: Profile)

  type Record = map<Field, Value>
  type Hash = map<Field, string>

  function KindOf(f: Field): Kind {
    match f
    case Strike => KInt
    case Qty => KInt
    case HoldingSeconds => KInt
    case TslArmed => KFlag
    case EntryTs => KTime
    case ExitTs => KTime
    case ExitProfile => KProfile
    case PosId => KText
    case SigId => KText
    case IndexName => KText
    case SideName => KText
    case InstrumentToken => KText
    case EntryOrderId => KText
    case ExitOrderId => KText
    case Mode => KText
    case Intent => KText
    case StrategyVersion => KText
    case _ => KReal
  }

  predicate Optional(f: Field) { f in {ExitOrderId, ExitPrice, ExitTs, TslLevel, DeltaPcrAtEntry} }

  /** What the schema supplies for a field that is not given; `None` when the field is required. */
  function DefaultOf(f: Field): Option<Value> {
    if Optional(f) then Some(Null)
    else match f
         case TslArmed => Some(Flag(false))
         case Pnl => Some(Number(0.0))
         case PnlPct => Some(Number(0.0))
         case HoldingSeconds => Some(Whole(0))
         case _ => None
  }

  predicate HasKind(v: Value, k: Kind) {
    match k
    case KText => v.Text?
    case KInt => v.Whole?
    case KReal => v.Number?
    case KFlag => v.Flag?
    case KTime => v.Time?
    case KProfile => v.Exits?
  }

  predicate Typed(f: Field, v: Value) { HasKind(v, KindOf(f)) || (v.Null? && Optional(f)) }

  /** The constraints of the schema on field values. */
  predicate FieldOk(f: Field, v: Value) {
    && Typed(f, v)
    && (f == Qty ==> v.Whole? && v.n > 0)
    && (f == ExitProfile ==> v.Exits? && v.p.maxHoldSec > 0)
    && (f == IndexName ==> v.Text? && v.s in {"nifty50", "banknifty"})
    && (f == SideName ==> v.Text? && v.s in {"CE", "PE"})
    && (f == Mode ==> v.Text? && v.s in {"paper", "live"})
    && (f == Intent ==> v.Text? && v.s in {"FRESH_ENTRY", "REVERSAL_FLIP"})
  }

  predicate ValidRecord(p: Record) {
    forall f: Field :: f in p && FieldOk(f, p[f])
  }

  /** The library conversions: `str`/`int`, `repr`/`float`, ISO timestamps, JSON. */
  datatype Codec = Codec(
    fromInt: int -> string, toInt: string -> Option<int>,
    fromReal: real -> string, toReal: string -> Option<real>,
    fromTime: int -> string, toTime: string -> Option<int>,
    fromProfile: Profile -> string, toProfile: string -> Option<Profile>)

  /** They are inverse to each other and never print nothing. */
  ghost predicate Lossless(c: Codec) {
    && (forall n :: c.fromInt(n) != "" && c.toInt(c.fromInt(n)) == Some(n))
    && (forall r :: c.fromReal(r) != "" && c.toReal(c.fromReal(r)) == Some(r))
    && (forall t :: c.fromTime(t) != "" && c.toTime(c.fromTime(t)) == Some(t))
    && (forall p :: c.fromProfile(p) != "" && c.toProfile(c.fromProfile(p)) == Some(p))
  }

  function Serialize(c: Codec, v: Value): string {
    match v
    case Null => ""
    case Text(s) => s
    case Whole(n) => c.fromInt(n)
    case Number(r) => c.fromReal(r)
    case Flag(b) => if b then "True" else "False"
    case Time(t) => c.fromTime(t)
    case Exits(p) => c.fromProfile(p)
  }

  function Lower(s: string): string {
    seq(|s|, i requires 0 <= i < |s| => if 'A' <= s[i] <= 'Z' then s[i] - 'A' + 'a' else s[i])
  }

  /** One field of the loader: an empty or unreadable value counts as not given. */
  function Parse(c: Codec, f: Field, text: string): Option<Value> {
    if text == "" then None
    else
      match KindOf(f)
      case KText => Some(Text(text))
      case KFlag => Some(Flag(Lower(text) == "true"))
      case KInt => (match c.toInt(text) case Some(n) => Some(Whole(n)) case None => None)
      case KReal => (match c.toReal(text) case Some(r) => Some(Number(r)) case None => None)
      case KTime => (match c.toTime(text) case Some(t) => Some(Time(t)) case None => None)
      case KProfile => (match c.toProfile(text) case Some(p) => Some(Exits(p)) case None => None)
  }

  /** The entry pipeline stores every field that is not None. */
  function Store(c: Codec, p: Record): Hash {
    map f | f in p && !p[f].Null? :: Serialize(c, p[f])
  }

  predicate IsLive(f: Field) {
    f.PeakPremium? || f.TslArmed? || f.TslLevel? || f.CurrentPremium? || f.Pnl? || f.PnlPct? || f.HoldingSeconds?
  }

  function LiveFields(c: Codec, p: Record): Hash {
    map f | f in p && IsLive(f) :: Serialize(c, p[f])
  }

  /** The poll loop rewrites the live fields, writing None as the empty string. */
  function Refresh(c: Codec, h: Hash, p: Record): Hash {
    h + LiveFields(c, p)
  }

  /** What the loader has for a field: the parsed value, else the default, else nothing. */
  function Reading(c: Codec, h: Hash, f: Field): Option<Value> {
    var given := if f in h then Parse(c, f, h[f]) else None;
    if given.Some? then given else DefaultOf(f)
  }

  /** Re-hydration: nothing for a missing hash, and nothing when validation fails. */
  function Load(c: Codec, h: Hash): (p: Option<Record>)
    ensures p.Some? ==> ValidRecord(p.value)
  {
    if h == map[] then None
    else if forall f: Field :: Reading(c, h, f).Some? && FieldOk(f, Reading(c, h, f).value) then
      Some(map f: Field :: Reading(c, h, f).value)
    else None
  }

  predicate NoEmptyText(p: Record) {
    forall f :: f in p && p[f].Text? ==> p[f].s != ""
  }

  lemma FlagRoundTrip(b: bool)
    ensures Lower(if b then "True" else "False") == if b then "true" else "false"
    ensures (Lower(if b then "True" else "False") == "true") == b
  {
    if !b {
      assert Lower("False")[0] != "true"[0];
    }
  }

  /** A flag reads as set exactly when its text spells "true", in whatever case. */
  lemma FlagReads(c: Codec, f: Field, text: string)
    requires KindOf(f) == KFlag
    ensures Parse(c, f, text) == Some(Flag(true)) <==>
              && |text| == 4
              && (text[0] == 't' || text[0] == 'T') && (text[1] == 'r' || text[1] == 'R')
              && (text[2] == 'u' || text[2] == 'U') && (text[3] == 'e' || text[3] == 'E')
  {
    if |text| == 4 {
      var low := Lower(text);
      assert low == [low[0], low[1], low[2], low[3]];
      assert "true" == ['t', 'r', 'u', 'e'];
      assert low == "true" <==> low[0] == 't' && low[1] == 'r' && low[2] == 'u' && low[3] == 'e';
    } else {
      assert |Lower(text)| != |"true"|;
    }
  }

  /** Any value but an empty text is read back as it was written. */
  lemma FieldRoundTrip(c: Codec, f: Field, v: Value)
    requires Lossless(c) && HasKind(v, KindOf(f)) && v != Text("")
    ensures Parse(c, f, Serialize(c, v)) == Some(v)
  {
    if v.Flag? {
      FlagRoundTrip(v.b);
    }
  }

  /** A hash from which every field of `p` reads back loads as `p`. */
  lemma LoadsWhenAllRead(c: Codec, h: Hash, p: Record)
    requires ValidRecord(p) && PosId in h
    requires forall f: Field :: Reading(c, h, f) == Some(p[f])
    ensures Load(c, h) == Some(p)
  {
    assert h != map[];
    assert (map f: Field :: Reading(c, h, f).value) == p;
  }

  lemma StoreLoad(c: Codec, p: Record)
    requires Lossless(c) && ValidRecord(p) && NoEmptyText(p)
    ensures Load(c, Store(c, p)) == Some(p)
  {
    var h := Store(c, p);
    forall f: Field ensures Reading(c, h, f) == Some(p[f]) {
      ReadsBack(c, p, f);
    }
    assert PosId in h by { assert FieldOk(PosId, p[PosId]); }
    LoadsWhenAllRead(c, h, p);
  }

  /** An empty text is written like a missing value, so it cannot come back. */
  lemma EmptyTextIsLost(c: Codec, p: Record, f: Field)
    requires f in p && p[f] == Text("")
    ensures Reading(c, Store(c, p), f) == DefaultOf(f) != Some(p[f])
  {
  }

  /** Storing and loading gives a position back if and only if none of its text fields is empty. */
  lemma StoreLoadExactly(c: Codec, p: Record)
    requires Lossless(c) && ValidRecord(p)
    ensures Load(c, Store(c, p)) == Some(p) <==> NoEmptyText(p)
  {
    if NoEmptyText(p) {
      StoreLoad(c, p);
    } else {
      var f :| f in p && p[f].Text? && p[f].s == "";
      EmptyTextIsLost(c, p, f);
      if Load(c, Store(c, p)).Some? {
        LoadedValue(c, Store(c, p), f);
      }
    }
  }

  lemma LoadedValue(c: Codec, h: Hash, f: Field)
    requires Load(c, h).Some?
    ensures f in Load(c, h).value && Reading(c, h, f) == Some(Load(c, h).value[f])
  {
  }

  lemma ReadsBack(c: Codec, p: Record, f: Field)
    requires Lossless(c) && ValidRecord(p) && NoEmptyText(p)
    ensures Reading(c, Store(c, p), f) == Some(p[f])
  {
    assert f in p && FieldOk(f, p[f]);
    if !p[f].Null? {
      FieldRoundTrip(c, f, p[f]);
    }
  }

  function RefreshAll(c: Codec, h: Hash, ps: seq<Record>): Hash {
    if ps == [] then h else Refresh(c, RefreshAll(c, h, ps[..|ps| - 1]), ps[|ps| - 1])
  }

  lemma RefreshTwice(c: Codec, h: Hash, p: Record, q: Record)
    requires p.Keys == q.Keys
    ensures Refresh(c, Refresh(c, h, p), q) == Refresh(c, h, q)
  {
    assert LiveFields(c, p).Keys == LiveFields(c, q).Keys;
  }

  /** Only the last refresh shows. */
  lemma {:induction false} LastRefreshWins(c: Codec, h: Hash, ps: seq<Record>)
    requires ps != [] && forall k :: 0 <= k < |ps| ==> ps[k].Keys == ps[0].Keys
    ensures RefreshAll(c, h, ps) == Refresh(c, h, ps[|ps| - 1])
  {
    var n := |ps| - 1;
    if n > 0 {
      LastRefreshWins(c, h, ps[..n]);
      RefreshTwice(c, h, ps[n - 1], ps[n]);
    }
  }

  lemma ReadsLive(c: Codec, h: Hash, q: Record, f: Field)
    requires Lossless(c) && f in q && Typed(f, q[f]) && IsLive(f)
    ensures Reading(c, Refresh(c, h, q), f) == Some(q[f])
  {
    var v := q[f];
    assert Refresh(c, h, q)[f] == Serialize(c, v);
    if HasKind(v, KindOf(f)) {
      FieldRoundTrip(c, f, v);
    } else {
      assert Parse(c, f, "") == None && DefaultOf(f) == Some(Null);
    }
  }

  lemma RefreshKeepsRest(c: Codec, h: Hash, q: Record, f: Field)
    requires !IsLive(f)
    ensures Reading(c, Refresh(c, h, q), f) == Reading(c, h, f)
  {
    assert f in Refresh(c, h, q) <==> f in h;
    assert f in h ==> Refresh(c, h, q)[f] == h[f];
  }

  /** Live fields read as refreshed, the others as stored. */
  lemma ReadsRefreshed(c: Codec, p: Record, q: Record, f: Field)
    requires Lossless(c) && ValidRecord(p) && NoEmptyText(p) && ValidRecord(q)
    requires f in p && f in q && (!IsLive(f) ==> q[f] == p[f])
    ensures Reading(c, Refresh(c, Store(c, p), q), f) == Some(q[f])
  {
    if IsLive(f) {
      assert FieldOk(f, q[f]);
      ReadsLive(c, Store(c, p), q, f);
    } else {
      RefreshKeepsRest(c, Store(c, p), q, f);
      ReadsBack(c, p, f);
    }
  }

  /** One refresh with `q` makes the hash load as `q`. */
  lemma RefreshedLoads(c: Codec, p: Record, q: Record)
    requires Lossless(c) && ValidRecord(p) && NoEmptyText(p) && ValidRecord(q)
    requires forall f: Field :: f in p && f in q && !IsLive(f) ==> q[f] == p[f]
    ensures Load(c, Refresh(c, Store(c, p), q)) == Some(q)
  {
    var h := Refresh(c, Store(c, p), q);
    forall f: Field ensures Reading(c, h, f) == Some(q[f]) {
      assert f in p && f in q;
      ReadsRefreshed(c, p, q, f);
    }
    assert PosId in h by { assert FieldOk(PosId, p[PosId]); }
    LoadsWhenAllRead(c, h, q);
  }

  /** After any number of refreshes the hash loads as the latest position, None fields included. */
  lemma RefreshLoad(c: Codec, p: Record, ps: seq<Record>)
    requires Lossless(c) && ValidRecord(p) && NoEmptyText(p) && ps != []
    requires forall k :: 0 <= k < |ps| ==> ValidRecord(ps[k])
    requires forall f: Field :: f in p && f in ps[|ps| - 1] && ps[|ps| - 1][f] != p[f] ==>
               || f.PeakPremium? || f.TslArmed? || f.TslLevel? || f.CurrentPremium? || f.Pnl? || f.PnlPct?
               || f.HoldingSeconds?
    ensures Load(c, RefreshAll(c, Store(c, p), ps)) == Some(ps[|ps| - 1])
  {
    forall k | 0 <= k < |ps| ensures ps[k].Keys == ps[0].Keys {
      SameFields(ps[k], ps[0]);
    }
    LastRefreshWins(c, Store(c, p), ps);
    RefreshedLoads(c, p, ps[|ps| - 1]);
  }

  lemma SameFields(p: Record, q: Record)
    requires ValidRecord(p) && ValidRecord(q)
    ensures p.Keys == q.Keys
  {
    assert forall f: Field :: f in p && f in q;
  }

  /** A signal's `strategy_version` defaults to the empty string; such a position can never be loaded again. */
  lemma EmptyVersionNeverLoads(c: Codec, p: Record)
    requires ValidRecord(p) && p[StrategyVersion] == Text("")
    ensures Load(c, Store(c, p)) == None
  {
    EmptyTextIsLost(c, p, StrategyVersion);
    assert DefaultOf(StrategyVersion) == None;
    if Load(c, Store(c, p)).Some? {
      LoadedValue(c, Store(c, p), StrategyVersion);
    }
  }

  // ---------------------------------------------------------------- what a loaded position is

  /** The schema, field by field. */
  predicate Schema(f: Field, v: Value) {
    match f
    case PosId => v.Text?
    case SigId => v.Text?
    case IndexName => v == Text("nifty50") || v == Text("banknifty")
    case SideName => v == Text("CE") || v == Text("PE")
    case Strike => v.Whole?
    case InstrumentToken => v.Text?
    case Qty => v.Whole? && v.n > 0
    case EntryOrderId => v.Text?
    case ExitOrderId => v.Text? || v.Null?
    case EntryPrice => v.Number?
    case EntryTs => v.Time?
    case ExitPrice => v.Number? || v.Null?
    case ExitTs => v.Time? || v.Null?
    case Mode => v == Text("paper") || v == Text("live")
    case Intent => v == Text("FRESH_ENTRY") || v == Text("REVERSAL_FLIP")
    case SlLevel => v.Number?
    case TargetLevel => v.Number?
    case TslArmed => v.Flag?
    case TslArmPct => v.Number?
    case TslTrailPct => v.Number?
    case TslLevel => v.Number? || v.Null?
    case PeakPremium => v.Number?
    case CurrentPremium => v.Number?
    case Pnl => v.Number?
    case PnlPct => v.Number?
    case HoldingSeconds => v.Whole?
    case ExitProfile => v.Exits? && v.p.maxHoldSec > 0
    case SumCeAtEntry => v.Number?
    case SumPeAtEntry => v.Number?
    case DeltaPcrAtEntry => v.Number? || v.Null?
    case StrategyVersion => v.Text?
  }

  predicate Choice(f: Field) { f.IndexName? || f.SideName? || f.Mode? || f.Intent? }

  lemma ChoiceIsSchema(f: Field, v: Value)
    requires Choice(f)
    ensures FieldOk(f, v) <==> Schema(f, v)
  {
    assert Typed(f, v) <==> v.Text?;
    if v.Text? {
      assert v == Text(v.s);
    }
  }

  lemma NumberIsSchema(f: Field, v: Value)
    requires KindOf(f) == KReal
    ensures FieldOk(f, v) <==> Schema(f, v)
  {
    assert FieldOk(f, v) <==> Typed(f, v);
  }

  lemma TypeIsSchema(f: Field, v: Value)
    requires !Choice(f) && KindOf(f) != KReal
    ensures FieldOk(f, v) <==> Schema(f, v)
  {
    assert FieldOk(f, v) <==> Typed(f, v) && (f.Qty? ==> v.n > 0) && (f.ExitProfile? ==> v.p.maxHoldSec > 0);
  }

  lemma ValidationIsSchema(f: Field, v: Value)
    ensures FieldOk(f, v) <==> Schema(f, v)
  {
    if Choice(f) {
      ChoiceIsSchema(f, v);
    } else if KindOf(f) == KReal {
      NumberIsSchema(f, v);
    } else {
      TypeIsSchema(f, v);
    }
  }

  /** Whatever loads has every field, of its own type and within the bounds of the schema. */
  lemma LoadedFitsSchema(c: Codec, h: Hash, f: Field)
    requires Load(c, h).Some?
    ensures f in Load(c, h).value && Schema(f, Load(c, h).value[f])
  {
    LoadedValue(c, h, f);
    ValidationIsSchema(f, Load(c, h).value[f]);
  }

  /** A field that was not stored, or stored empty, shows its default; a required one spoils the load. */
  lemma MissingFieldShowsDefault(c: Codec, h: Hash, f: Field)
    requires f !in h || h[f] == ""
    ensures Load(c, h).Some? ==>
              match f
              case ExitOrderId => Load(c, h).value[f] == Null
              case ExitPrice => Load(c, h).value[f] == Null
              case ExitTs => Load(c, h).value[f] == Null
              case TslLevel => Load(c, h).value[f] == Null
              case DeltaPcrAtEntry => Load(c, h).value[f] == Null
              case TslArmed => Load(c, h).value[f] == Flag(false)
              case Pnl => Load(c, h).value[f] == Number(0.0)
              case PnlPct => Load(c, h).value[f] == Number(0.0)
              case HoldingSeconds => Load(c, h).value[f] == Whole(0)
              case _ => false
  {
    if Load(c, h).Some? {
      LoadedValue(c, h, f);
    }
  }
}
