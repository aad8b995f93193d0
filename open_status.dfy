/**
 * The open/closed badge of a listed place
 * (app/components/RestaurantList.tsx:136-186): a tiered fallback over the
 * cached detail record and the search record, yielding open, closed or
 * unknown. Only the search record's `isOpen()` call sits inside a
 * try/catch; an exception from the detail record's `isOpen()` escapes the
 * render.
 */
module OpenStatus {
  import opened Wrappers
  import opened Places

  datatype OpenState = Open | Closed | Unknown

  /** What one source of the fallback contributes: a defined boolean,
      nothing, or an exception that nothing catches. */
  datatype Tier = Defined(open: bool) | Undefined | Raised

  /** The badge's outcome: a state, or the exception that aborts rendering. */
  datatype Resolution = Resolved(state: OpenState) | RenderThrows

  /** The local `isOpen: boolean | null` read as a state. */
  function StateOf(isOpen: Option<bool>): OpenState {
    match isOpen
    case None => Unknown
    case Some(b) => if b then Open else Closed
  }

  /** The value `isOpen()` gives where a throw is caught or cannot happen. */
  function CallResult(c: IsOpenCall): Option<bool> {
    match c
    case Returns(v) => v
    case _ => None
  }

  /** Tier 1: the cached detail record's `opening_hours.isOpen()`, uncaught. */
  function DetailTier(detail: Option<PlaceDetails>): Tier {
    if detail.None? || detail.value.openingHours.None? then Undefined
    else
      match detail.value.openingHours.value.isOpen
      case Throws => Raised
      case NoIsOpen => Undefined
      case Returns(v) => if v.Some? then Defined(v.value) else Undefined
  }

  /** Tier 2: the search record's `opening_hours.isOpen()`, a throw ignored. */
  function ListIsOpenTier(listed: PlaceResult): Tier {
    if listed.openingHours.None? then Undefined
    else
      var v := CallResult(listed.openingHours.value.isOpen);
      if v.Some? then Defined(v.value) else Undefined
  }

  /** Tier 3: the search record's deprecated `opening_hours.open_now`. */
  function OpenNowTier(listed: PlaceResult): Tier {
    if listed.openingHours.None? || listed.openingHours.value.openNow.None? then Undefined
    else Defined(listed.openingHours.value.openNow.value)
  }

  /** The tiers in order of precedence. */
  function Tiers(detail: Option<PlaceDetails>, listed: PlaceResult): seq<Tier> {
    [DetailTier(detail), ListIsOpenTier(listed), OpenNowTier(listed)]
  }

  /** An ordered list of fallible sources evaluated in priority order: the
      first defined value wins, an uncaught exception stops everything, and
      when no source answers the state is unknown. */
  function FirstDefined(tiers: seq<Tier>): (r: Resolution) {
    if tiers == [] then Resolved(Unknown)
    else
      match tiers[0]
      case Defined(b) => Resolved(StateOf(Some(b)))
      case Raised => RenderThrows
      case Undefined => FirstDefined(tiers[1..])
  }

  /** The badge's immediately-invoked function, step by step as the source
      updates its local `isOpen`. */
  function ResolveOpenStatus(detail: Option<PlaceDetails>, listed: PlaceResult): (r: Resolution) {
    var detailHours := if detail.Some? then detail.value.openingHours else None;
    if detailHours.Some? && detailHours.value.isOpen.Throws? then RenderThrows
    else
      var isOpen := if detailHours.Some? then CallResult(detailHours.value.isOpen) else None;
      var isOpen :=
        if isOpen.None? && listed.openingHours.Some? then
          var fromCall := CallResult(listed.openingHours.value.isOpen);
          if fromCall.None? && listed.openingHours.value.openNow.Some? then listed.openingHours.value.openNow
          else fromCall
        else isOpen;
      Resolved(StateOf(isOpen))
  }

  /** The badge text for each state. */
  function StatusText(s: OpenState): (t: string)
    ensures (t == "營業中") == (s == Open)
    ensures (t == "休息中") == (s == Closed)
    ensures (t == "營業時間未知") == (s == Unknown)
  {
    match s
    case Open => "營業中"
    case Closed => "休息中"
    case Unknown => "營業時間未知"
  }

  /** The badge's code is the ordered fallback over the three tiers. */
  lemma ResolveFollowsTiers(detail: Option<PlaceDetails>, listed: PlaceResult)
    ensures ResolveOpenStatus(detail, listed) == FirstDefined(Tiers(detail, listed))
  {
    var t := Tiers(detail, listed);
    var t2, t3 := [ListIsOpenTier(listed), OpenNowTier(listed)], [OpenNowTier(listed)];
    assert t[1..] == t2 && t2[1..] == t3 && t3[1..] == [];
    assert FirstDefined(t3) == if t3[0].Defined? then Resolved(StateOf(Some(t3[0].open))) else Resolved(Unknown);
    assert FirstDefined(t2) == if t2[0].Defined? then Resolved(StateOf(Some(t2[0].open))) else FirstDefined(t3);
    if DetailTier(detail).Undefined? {
      assert FirstDefined(t) == FirstDefined(t2);
    }
  }

  /** Precedence: tier `k` decides exactly when every earlier tier is undefined. */
  lemma {:induction false} FirstDefinedPicksFirst(tiers: seq<Tier>, k: nat)
    requires k < |tiers| && tiers[k].Defined?
    requires forall i :: 0 <= i < k ==> tiers[i].Undefined?
    ensures FirstDefined(tiers) == Resolved(StateOf(Some(tiers[k].open)))
  {
    if k > 0 {
      FirstDefinedPicksFirst(tiers[1..], k - 1);
    }
  }

  /** With no source answering, the state is unknown. */
  lemma {:induction false} FirstDefinedNoneAnswers(tiers: seq<Tier>)
    requires forall i :: 0 <= i < |tiers| ==> tiers[i].Undefined?
    ensures FirstDefined(tiers) == Resolved(Unknown)
  {
    if tiers != [] {
      FirstDefinedNoneAnswers(tiers[1..]);
    }
  }

  /** The precedence of the badge, tier by tier: the detail record's
      `isOpen()` when defined; else the search record's `isOpen()` when it
      neither throws nor yields `undefined`; else `open_now` when defined;
      else unknown. A throw from the detail record's `isOpen()` aborts. */
  lemma OpenStatusPrecedence(detail: Option<PlaceDetails>, listed: PlaceResult)
    ensures DetailTier(detail).Defined? ==>
              ResolveOpenStatus(detail, listed) == Resolved(StateOf(Some(DetailTier(detail).open)))
    ensures DetailTier(detail).Raised? ==> ResolveOpenStatus(detail, listed) == RenderThrows
    ensures DetailTier(detail).Undefined? && ListIsOpenTier(listed).Defined? ==>
              ResolveOpenStatus(detail, listed) == Resolved(StateOf(Some(ListIsOpenTier(listed).open)))
    ensures DetailTier(detail).Undefined? && ListIsOpenTier(listed).Undefined? && OpenNowTier(listed).Defined? ==>
              ResolveOpenStatus(detail, listed) == Resolved(StateOf(Some(OpenNowTier(listed).open)))
    ensures DetailTier(detail).Undefined? && ListIsOpenTier(listed).Undefined? && OpenNowTier(listed).Undefined? ==>
              ResolveOpenStatus(detail, listed) == Resolved(Unknown)
  {
    var t := Tiers(detail, listed);
    ResolveFollowsTiers(detail, listed);
    if DetailTier(detail).Undefined? && ListIsOpenTier(listed).Defined? {
      FirstDefinedPicksFirst(t, 1);
    }
    if DetailTier(detail).Undefined? && ListIsOpenTier(listed).Undefined? && OpenNowTier(listed).Defined? {
      FirstDefinedPicksFirst(t, 2);
    }
    if DetailTier(detail).Undefined? && ListIsOpenTier(listed).Undefined? && OpenNowTier(listed).Undefined? {
      FirstDefinedNoneAnswers(t);
    }
  }

  /** A search record whose `isOpen()` throws and whose `open_now` is true
      shows as open when no detail record says otherwise. */
  lemma ThrowingIsOpenFallsBackToOpenNow(detail: Option<PlaceDetails>, listed: PlaceResult)
    requires DetailTier(detail).Undefined?
    requires listed.openingHours == Some(OpeningHours(Throws, Some(true)))
    ensures ResolveOpenStatus(detail, listed) == Resolved(Open)
    ensures StatusText(ResolveOpenStatus(detail, listed).state) == "營業中"
  {
    OpenStatusPrecedence(detail, listed);
  }
}
