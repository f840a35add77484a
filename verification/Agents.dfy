/**
 The A2A agent table: an array with swap-remove, in which registering a known id updates the
 existing card and merges its capability mask.
 */
module Agents {
  import opened CText

  const MAX_AGENTS: nat := 256
  const ID_LENGTH: nat := 63
  const NAME_LENGTH: nat := 127
  const URL_LENGTH: nat := 511
  const TEXT_LENGTH: nat := 1023
  const DEFAULT_VERSION: int := 3

  type Mask = bv32

  /** Capability masks are merged bit by bit. */
  function Merge(a: Mask, b: Mask): Mask { a | b }

  /** A card as the table stores it. */
  datatype Card = Card(id: string, name: string, url: string, capabilities: string, version: int,
                       mask: Mask, available: bool)

  /** A card as a caller hands it in: texts may be missing, and an empty id is a missing one. */
  datatype Offer = Offer(id: string, name: Option<string>, url: Option<string>, capabilities: Option<string>,
                         version: int, mask: Mask, available: bool)

  /**
   A registration carries what the table would supply: the id it would generate, and the capability
   text that an earlier card left behind in the next free slot.
   */
  datatype Op = Register(offer: Offer, spare: string, stale: string) | Unregister(id: string)

  function OrElse(text: Option<string>, default: string): string {
    match text case None => default case Some(t) => t
  }

  /** The card that an offer makes: the texts cut to their fields, a missing capability text kept. */
  function Filled(o: Offer, id: string, mask: Mask, earlier: string): Card {
    Card(id,
         Truncate(OrElse(o.name, "Unknown"), NAME_LENGTH),
         Truncate(OrElse(o.url, ""), URL_LENGTH),
         match o.capabilities case None => earlier case Some(t) => Truncate(t, TEXT_LENGTH),
         if o.version > 0 then o.version else DEFAULT_VERSION,
         mask, o.available)
  }

  /** The id under which a new card is stored. */
  function Stored(o: Offer, spare: string): string {
    if o.id == "" then spare else Truncate(o.id, ID_LENGTH)
  }

  /** The id generated for the next card when `count` cards are there. */
  function GeneratedId(count: nat, counter: nat): string {
    Truncate("agent_" + Decimal(count + 1) + "_" + Decimal(counter), ID_LENGTH)
  }

  // ---------------------------------------------------------------- the table as a list

  /** The first card with the given id, or the number of cards. */
  function IndexOf(cs: seq<Card>, id: string): (i: nat)
    ensures i <= |cs|
    ensures i < |cs| ==> cs[i].id == id
    ensures forall j :: 0 <= j < i ==> cs[j].id != id
  {
    if cs == [] || cs[0].id == id then 0 else 1 + IndexOf(cs[1..], id)
  }

  /** A known id is updated in place; otherwise a card is added, under the spare id if it has none. */
  function DoRegister(cs: seq<Card>, o: Offer, spare: string, stale: string): seq<Card> {
    var i := if o.id == "" then |cs| else IndexOf(cs, o.id);
    if i < |cs| then cs[i := Filled(o, cs[i].id, Merge(cs[i].mask, o.mask), cs[i].capabilities)]
    else if |cs| >= MAX_AGENTS then cs
    else cs + [Filled(o, Stored(o, spare), o.mask, stale)]
  }

  /** The last card takes the place of the removed one. */
  function DoUnregister(cs: seq<Card>, id: string): seq<Card> {
    var i := IndexOf(cs, id);
    if i == |cs| then cs else cs[i := cs[|cs| - 1]][..|cs| - 1]
  }

  function Step(cs: seq<Card>, op: Op): seq<Card> {
    match op
    case Register(o, spare, stale) => DoRegister(cs, o, spare, stale)
    case Unregister(id) => DoUnregister(cs, id)
  }

  function Run(ops: seq<Op>): seq<Card> {
    if ops == [] then [] else Step(Run(ops[..|ops| - 1]), ops[|ops| - 1])
  }

  // ---------------------------------------------------------------- the table as a map

  /** A registration that finds its card. */
  predicate Known(m: map<string, Card>, o: Offer) { o.id != "" && o.id in m }

  /** Updates the card under an id, or adds it. */
  function Put(m: map<string, Card>, id: string, o: Offer, stale: string): map<string, Card> {
    if id in m then m[id := Filled(o, id, Merge(m[id].mask, o.mask), m[id].capabilities)]
    else m[id := Filled(o, id, o.mask, stale)]
  }

  /** The same operations on a map from ids to cards. */
  function MapStep(m: map<string, Card>, op: Op): map<string, Card> {
    match op
    case Register(o, spare, stale) =>
      if Known(m, o) then Put(m, o.id, o, stale)
      else if |m| >= MAX_AGENTS then m
      else Put(m, Stored(o, spare), o, stale)
    case Unregister(id) => m - {id}
  }

  function MapRun(ops: seq<Op>): map<string, Card> {
    if ops == [] then map[] else MapStep(MapRun(ops[..|ops| - 1]), ops[|ops| - 1])
  }

  /** A card is only ever added under an id that is not in the table. */
  ghost predicate FreshAt(m: map<string, Card>, o: Offer, spare: string) {
    Known(m, o) || |m| >= MAX_AGENTS || Stored(o, spare) !in m
  }

  ghost predicate FreshRun(ops: seq<Op>) {
    forall i :: 0 <= i < |ops| && ops[i].Register? ==> FreshAt(MapRun(ops[..i]), ops[i].offer, ops[i].spare)
  }

  /** Operations that name agents by ids of 1 to 63 bytes. */
  predicate ShortIds(ops: seq<Op>) {
    forall i :: 0 <= i < |ops| && ops[i].Register? ==> 1 <= |ops[i].offer.id| <= ID_LENGTH
  }

  ghost predicate DistinctIds(cs: seq<Card>) {
    forall i, j :: 0 <= i < j < |cs| ==> cs[i].id != cs[j].id
  }

  ghost predicate HasId(cs: seq<Card>, id: string) {
    exists j :: 0 <= j < |cs| && cs[j].id == id
  }

  /** The list holds exactly the map's bindings, each once. */
  ghost predicate Represents(cs: seq<Card>, m: map<string, Card>) {
    && DistinctIds(cs) && |cs| == |m|
    && (forall i :: 0 <= i < |cs| ==> cs[i].id in m && m[cs[i].id] == cs[i])
    && forall id :: id in m ==> HasId(cs, id)
  }

  lemma HasIdAt(cs: seq<Card>, j: nat)
    requires j < |cs|
    ensures HasId(cs, cs[j].id)
  {
  }

  lemma HasIdIndex(cs: seq<Card>, id: string)
    ensures HasId(cs, id) <==> IndexOf(cs, id) < |cs|
  {
    hide IndexOf;
  }

  lemma SizeOf(cs: seq<Card>, m: map<string, Card>)
    requires Represents(cs, m)
    ensures |cs| == |m| && DistinctIds(cs)
  {
  }

  /** Looking up by id in a list that represents a map. */
  lemma KnownIds(cs: seq<Card>, m: map<string, Card>, id: string)
    requires Represents(cs, m)
    ensures id in m <==> IndexOf(cs, id) < |cs|
    ensures id in m ==> m[id] == cs[IndexOf(cs, id)]
  {
    hide IndexOf, HasId, DistinctIds;
    HasIdIndex(cs, id);
  }

  lemma ReplaceRefines(cs: seq<Card>, m: map<string, Card>, i: nat, card: Card)
    requires Represents(cs, m) && i < |cs| && card.id == cs[i].id
    ensures Represents(cs[i := card], m[card.id := card])
  {
    hide IndexOf, HasId;
    var cs', m' := cs[i := card], m[card.id := card];
    assert m'.Keys == m.Keys;
    forall id | id in m'
      ensures HasId(cs', id)
    {
      KnownIds(cs, m, id);
      HasIdAt(cs', IndexOf(cs, id));
    }
  }

  lemma InsertSize(m: map<string, Card>, id: string, card: Card)
    requires id !in m
    ensures |m[id := card]| == |m| + 1
  {
    assert m[id := card].Keys == m.Keys + {id};
  }

  lemma AppendRefines(cs: seq<Card>, m: map<string, Card>, card: Card)
    requires Represents(cs, m) && card.id !in m
    ensures Represents(cs + [card], m[card.id := card])
  {
    hide IndexOf, HasId;
    var cs', m' := cs + [card], m[card.id := card];
    KnownIds(cs, m, card.id);
    InsertSize(m, card.id, card);
    forall id | id in m'
      ensures HasId(cs', id)
    {
      if id != card.id {
        KnownIds(cs, m, id);
        HasIdAt(cs', IndexOf(cs, id));
      } else {
        HasIdAt(cs', |cs|);
      }
    }
  }

  lemma RegisterRefines(cs: seq<Card>, m: map<string, Card>, o: Offer, spare: string, stale: string)
    requires Represents(cs, m) && FreshAt(m, o, spare)
    ensures Represents(DoRegister(cs, o, spare, stale), MapStep(m, Register(o, spare, stale)))
  {
    hide IndexOf, Merge, Represents, Truncate;
    KnownIds(cs, m, o.id);
    SizeOf(cs, m);
    if Known(m, o) {
      var i := IndexOf(cs, o.id);
      ReplaceRefines(cs, m, i, Filled(o, o.id, Merge(cs[i].mask, o.mask), cs[i].capabilities));
    } else if |cs| < MAX_AGENTS {
      AppendRefines(cs, m, Filled(o, Stored(o, spare), o.mask, stale));
    }
  }

  lemma RemoveRefines(cs: seq<Card>, m: map<string, Card>, i: nat)
    requires Represents(cs, m) && i < |cs|
    ensures Represents(cs[i := cs[|cs| - 1]][..|cs| - 1], m - {cs[i].id})
  {
    hide IndexOf, HasId;
    var n := |cs| - 1;
    var cs', m' := cs[i := cs[n]][..n], m - {cs[i].id};
    assert |m'| == |m| - 1 by { assert m'.Keys == m.Keys - {cs[i].id}; }
    assert forall j :: 0 <= j < n ==> cs'[j] == cs[if j == i then n else j];
    forall k | k in m'
      ensures HasId(cs', k)
    {
      KnownIds(cs, m, k);
      var j := IndexOf(cs, k);
      HasIdAt(cs', if j == n then i else j);
    }
  }

  lemma UnregisterRefines(cs: seq<Card>, m: map<string, Card>, id: string)
    requires Represents(cs, m)
    ensures Represents(DoUnregister(cs, id), MapStep(m, Unregister(id)))
  {
    hide IndexOf, Represents;
    KnownIds(cs, m, id);
    if id in m {
      RemoveRefines(cs, m, IndexOf(cs, id));
    } else {
      assert m - {id} == m;
    }
  }

  lemma FreshPrefix(ops: seq<Op>, k: nat)
    requires FreshRun(ops) && k <= |ops|
    ensures FreshRun(ops[..k])
  {
    assert forall i :: 0 <= i < k ==> ops[..k][i] == ops[i] && ops[..k][..i] == ops[..i];
  }

  /** After every run that adds cards under new ids only, the table is the map of at most 256 agents. */
  lemma {:induction false} TableIsMap(ops: seq<Op>)
    requires FreshRun(ops)
    ensures Represents(Run(ops), MapRun(ops))
    ensures |Run(ops)| <= MAX_AGENTS
  {
    if ops != [] {
      hide Represents, IndexOf, FreshAt, Put, Known;
      var n := |ops| - 1;
      var init, op := ops[..n], ops[n];
      FreshPrefix(ops, n);
      TableIsMap(init);
      SizeOf(Run(init), MapRun(init));
      match op
      case Register(o, spare, stale) => RegisterRefines(Run(init), MapRun(init), o, spare, stale);
      case Unregister(id) => UnregisterRefines(Run(init), MapRun(init), id);
    }
  }

  /** Runs that name agents by ids of 1 to 63 bytes are such runs. */
  lemma ShortIdsAreFresh(ops: seq<Op>)
    requires ShortIds(ops)
    ensures FreshRun(ops)
  {
    hide MapRun;
  }

  /** A card added under an id that is there makes two cards with one id. */
  lemma CollisionDuplicates(cs: seq<Card>, m: map<string, Card>, o: Offer, spare: string, stale: string)
    requires Represents(cs, m) && !FreshAt(m, o, spare)
    ensures !DistinctIds(DoRegister(cs, o, spare, stale))
  {
    hide IndexOf, Truncate;
    KnownIds(cs, m, o.id);
    KnownIds(cs, m, Stored(o, spare));
    var cs' := DoRegister(cs, o, spare, stale);
    var j := IndexOf(cs, Stored(o, spare));
    assert cs'[j].id == cs'[|cs|].id;
  }

  lemma FreshLast(ops: seq<Op>)
    requires ops != []
    ensures var n := |ops| - 1;
            FreshRun(ops) <==>
              FreshRun(ops[..n]) && (ops[n].Register? ==> FreshAt(MapRun(ops[..n]), ops[n].offer, ops[n].spare))
  {
    hide FreshAt, MapRun;
    var n := |ops| - 1;
    assert forall i :: 0 <= i < n ==> ops[..n][i] == ops[i] && ops[..n][..i] == ops[..i];
  }

  lemma NothingIsFresh()
    ensures FreshRun([])
  {
  }

  /**
   The table stays free of duplicate ids throughout a run exactly when every card is added under an
   id that is absent at that moment. Longer ids, which are stored cut off, and generated ids, which
   a caller may have used, are where it can fail.
   */
  lemma {:induction false} MapExactlyWhenFresh(ops: seq<Op>)
    ensures (forall k :: 0 <= k <= |ops| ==> DistinctIds(Run(ops[..k]))) <==> FreshRun(ops)
    decreases |ops|
  {
    hide FreshAt, MapRun, Represents, DistinctIds, FreshRun;
    if FreshRun(ops) {
      forall k | 0 <= k <= |ops|
        ensures DistinctIds(Run(ops[..k]))
      {
        FreshPrefix(ops, k);
        TableIsMap(ops[..k]);
        SizeOf(Run(ops[..k]), MapRun(ops[..k]));
      }
    } else {
      NothingIsFresh();
      var n := |ops| - 1;
      var init := ops[..n];
      MapExactlyWhenFresh(init);
      FreshLast(ops);
      assert forall k :: 0 <= k <= n ==> init[..k] == ops[..k];
      if FreshRun(init) {
        TableIsMap(init);
        CollisionDuplicates(Run(init), MapRun(init), ops[n].offer, ops[n].spare, ops[n].stale);
        assert ops[..|ops|] == ops;
      } else {
        var k :| 0 <= k <= |init| && !DistinctIds(Run(init[..k]));
        assert !DistinctIds(Run(ops[..k]));
      }
    }
  }

  lemma DigitsAfterBar(x: string, d: string, x': string, d': string)
    requires AllDigits(d')
    ensures |d| < |d'| ==> x + "_" + d != x' + "_" + d'
  {
    var s, s' := x + "_" + d, x' + "_" + d';
    if |d| < |d'| && |s| == |s'| {
      var k := |s| - |d| - 1;
      assert s[k] == '_' && s'[k] == d'[k - |x'| - 1];
    }
  }

  /** The digits after the last underscore are determined by the text. */
  lemma SameNumber(x: string, d: string, x': string, d': string)
    requires AllDigits(d) && AllDigits(d') && x + "_" + d == x' + "_" + d'
    ensures d == d'
  {
    DigitsAfterBar(x, d, x', d');
    DigitsAfterBar(x', d', x, d);
    var s := x + "_" + d;
    assert s[|s| - |d|..] == d && s[|s| - |d'|..] == d';
  }

  lemma GeneratedLength(count: nat, counter: nat)
    requires count < MAX_AGENTS && counter <= ULONG_MAX
    ensures GeneratedId(count, counter) == "agent_" + Decimal(count + 1) + "_" + Decimal(counter)
  {
    hide Decimal;
    assert Pow10(3) == 1000;
    DecimalLength(count + 1, 3);
    Pow10Sum(10, 10);
    assert Pow10(10) == 10_000_000_000;
    DecimalLength(counter, 20);
  }

  /** The first id ever generated. */
  lemma FirstGeneratedId()
    ensures GeneratedId(0, 1) == "agent_1_1"
  {
    assert Decimal(1) == "1";
  }

  /** Ids generated under different counters differ, so only a caller's own id can be in the way. */
  lemma GeneratedIdsDiffer(count: nat, counter: nat, count': nat, counter': nat)
    requires count < MAX_AGENTS && count' < MAX_AGENTS && counter <= ULONG_MAX && counter' <= ULONG_MAX
    requires GeneratedId(count, counter) == GeneratedId(count', counter')
    ensures counter == counter'
  {
    hide Decimal;
    GeneratedLength(count, counter);
    GeneratedLength(count', counter');
    SameNumber("agent_" + Decimal(count + 1), Decimal(counter), "agent_" + Decimal(count' + 1), Decimal(counter'));
    DecimalValue(counter);
    DecimalValue(counter');
  }

  // ---------------------------------------------------------------- masks accumulate

  /** Whether a registration is accepted, and under which id. */
  predicate AcceptedAs(m: map<string, Card>, o: Offer, spare: string, id: string) {
    if Known(m, o) then o.id == id else |m| < MAX_AGENTS && Stored(o, spare) == id
  }

  function MasksAfter(m: map<string, Card>, op: Op, id: string, before: seq<Mask>): seq<Mask> {
    match op
    case Unregister(u) => if u == id then [] else before
    case Register(o, spare, _) => if AcceptedAs(m, o, spare, id) then before + [o.mask] else before
  }

  /** The masks accepted for an id since it was last unregistered. */
  function MasksSince(ops: seq<Op>, id: string): seq<Mask> {
    if ops == [] then []
    else
      var init := ops[..|ops| - 1];
      MasksAfter(MapRun(init), ops[|ops| - 1], id, MasksSince(init, id))
  }

  function OrAll(ms: seq<Mask>): Mask {
    if ms == [] then 0 else Merge(OrAll(ms[..|ms| - 1]), ms[|ms| - 1])
  }

  lemma ZeroOr(m: Mask)
    ensures Merge(0, m) == m
  {
  }

  /** A mask has at least one of the given bits. */
  predicate HasSome(m: Mask, bits: Mask) { m & bits != 0 }

  lemma OrOfAnds(a: Mask, b: Mask, bits: Mask)
    ensures Merge(a, b) & bits == (a & bits) | (b & bits)
  {
  }

  lemma OrIsZero(x: Mask, y: Mask)
    ensures x | y == 0 <==> x == 0 && y == 0
  {
  }

  lemma MergeHas(a: Mask, b: Mask, bits: Mask)
    ensures HasSome(Merge(a, b), bits) <==> HasSome(a, bits) || HasSome(b, bits)
  {
    hide Merge;
    OrOfAnds(a, b, bits);
    OrIsZero(a & bits, b & bits);
  }

  lemma ZeroHasNone(bits: Mask)
    ensures !HasSome(0, bits)
  {
  }

  /** A merged mask has some of the given bits exactly when one of the masks has. */
  lemma {:induction false} UnionHas(masks: seq<Mask>, bits: Mask)
    ensures HasSome(OrAll(masks), bits) <==> exists i :: 0 <= i < |masks| && HasSome(masks[i], bits)
  {
    hide Merge, HasSome;
    if masks == [] {
      ZeroHasNone(bits);
    } else {
      var n := |masks| - 1;
      UnionHas(masks[..n], bits);
      MergeHas(OrAll(masks[..n]), masks[n], bits);
      assert forall i :: 0 <= i < n ==> masks[..n][i] == masks[i];
    }
  }

  /** The binding of an id carries the OR of the given masks, and there is none without masks. */
  ghost predicate Carries(m: map<string, Card>, id: string, masks: seq<Mask>) {
    && (id in m <==> masks != [])
    && (id in m ==> m[id].mask == OrAll(masks))
  }

  lemma OrAllSnoc(masks: seq<Mask>, mask: Mask)
    ensures OrAll(masks + [mask]) == if masks == [] then mask else Merge(OrAll(masks), mask)
  {
    hide Merge;
    assert (masks + [mask])[..|masks|] == masks;
    ZeroOr(mask);
  }

  lemma PutCarries(m: map<string, Card>, id: string, o: Offer, stale: string, before: seq<Mask>)
    requires Carries(m, id, before)
    ensures Carries(Put(m, id, o, stale), id, before + [o.mask])
  {
    hide Merge, OrAll, Truncate;
    OrAllSnoc(before, o.mask);
  }

  lemma PutElsewhere(m: map<string, Card>, id: string, other: string, o: Offer, stale: string, before: seq<Mask>)
    requires Carries(m, id, before) && other != id
    ensures Carries(Put(m, other, o, stale), id, before)
  {
    hide Merge, OrAll, Filled;
  }

  lemma StepCarries(m: map<string, Card>, op: Op, id: string, before: seq<Mask>)
    requires Carries(m, id, before)
    ensures Carries(MapStep(m, op), id, MasksAfter(m, op, id, before))
  {
    match op
    case Unregister(u) =>
    case Register(o, spare, stale) =>
      hide Put, Carries, Stored;
      var target := if Known(m, o) then o.id else Stored(o, spare);
      if target == id {
        PutCarries(m, id, o, stale, before);
      } else {
        PutElsewhere(m, id, target, o, stale, before);
      }
  }

  /** An agent is known exactly while it has registrations, and its mask is the OR of all of them. */
  lemma {:induction false} MaskIsUnion(ops: seq<Op>, id: string)
    ensures id in MapRun(ops) <==> MasksSince(ops, id) != []
    ensures id in MapRun(ops) ==> MapRun(ops)[id].mask == OrAll(MasksSince(ops, id))
  {
    if ops != [] {
      hide MapStep, MasksAfter, OrAll;
      var init := ops[..|ops| - 1];
      MaskIsUnion(init, id);
      StepCarries(MapRun(init), ops[|ops| - 1], id, MasksSince(init, id));
    }
  }

  // ---------------------------------------------------------------- the latest offer

  /** The latest offer accepted for an id that was not unregistered since. */
  function LatestOffer(ops: seq<Op>, id: string): Option<Offer> {
    if ops == [] then None
    else
      var init := ops[..|ops| - 1];
      match ops[|ops| - 1]
      case Unregister(u) => if u == id then None else LatestOffer(init, id)
      case Register(o, spare, _) =>
        if AcceptedAs(MapRun(init), o, spare, id) then Some(o) else LatestOffer(init, id)
  }

  /** A card shows an offer: its texts cut to 127 and 511 bytes, its version or 3, its availability. */
  ghost predicate Shows(c: Card, id: string, o: Offer) {
    && c.id == id && c.available == o.available
    && c.version == (if o.version > 0 then o.version else 3)
    && c.name == Truncate(if o.name.Some? then o.name.value else "Unknown", 127)
    && c.url == Truncate(if o.url.Some? then o.url.value else "", 511)
    && (o.capabilities.Some? ==> c.capabilities == Truncate(o.capabilities.value, 1023))
  }

  lemma PutShows(m: map<string, Card>, id: string, o: Offer, stale: string)
    ensures id in Put(m, id, o, stale) && Shows(Put(m, id, o, stale)[id], id, o)
    ensures forall k :: k != id ==> (k in Put(m, id, o, stale) <==> k in m)
    ensures forall k :: k != id && k in m ==> Put(m, id, o, stale)[k] == m[k]
  {
    hide Merge, Truncate;
  }

  /** Without a capability text a card keeps the one it had, and a new card takes what its slot held. */
  lemma MissingTextKeeps(m: map<string, Card>, id: string, o: Offer, stale: string)
    requires o.capabilities.None?
    ensures id in m ==> Put(m, id, o, stale)[id].capabilities == m[id].capabilities
    ensures id !in m ==> Put(m, id, o, stale)[id].capabilities == stale
  {
    hide Merge, Truncate;
  }

  /** In every run the card of an id shows the latest offer accepted for it. */
  lemma {:induction false} CardShowsLatestOffer(ops: seq<Op>, id: string)
    ensures id in MapRun(ops) <==> LatestOffer(ops, id).Some?
    ensures id in MapRun(ops) ==> Shows(MapRun(ops)[id], id, LatestOffer(ops, id).value)
  {
    if ops != [] {
      hide Put, Shows, Stored;
      var init := ops[..|ops| - 1];
      CardShowsLatestOffer(init, id);
      match ops[|ops| - 1]
      case Unregister(u) =>
      case Register(o, spare, stale) =>
        PutShows(MapRun(init), if Known(MapRun(init), o) then o.id else Stored(o, spare), o, stale);
    }
  }

  // ---------------------------------------------------------------- registering again

  /** Stored ids fit their field. */
  ghost predicate IdsFit(cs: seq<Card>) {
    forall i :: 0 <= i < |cs| ==> |cs[i].id| <= ID_LENGTH
  }

  lemma {:induction false} RunIdsFit(ops: seq<Op>)
    requires forall i :: 0 <= i < |ops| && ops[i].Register? ==> |ops[i].spare| <= ID_LENGTH
    ensures IdsFit(Run(ops))
  {
    if ops != [] {
      hide IndexOf;
      RunIdsFit(ops[..|ops| - 1]);
    }
  }

  /**
   Registering again leaves the number of agents unchanged exactly when the id has 1 to 63 bytes or
   the table is full: a longer id is stored cut off and never found again, and without an id every
   registration is a new agent.
   */
  lemma ReRegistration(cs: seq<Card>, o: Offer, again: Offer, spare: string, spare': string, stale: string)
    requires again.id == o.id && IdsFit(cs) && |spare| <= ID_LENGTH
    ensures var once := DoRegister(cs, o, spare, stale);
            |DoRegister(once, again, spare', stale)| == |once| <==>
              1 <= |o.id| <= ID_LENGTH || |once| >= MAX_AGENTS
  {
    hide IndexOf;
    var once := DoRegister(cs, o, spare, stale);
    if 1 <= |o.id| <= ID_LENGTH {
      var i := IndexOf(cs, o.id);
      if i == |cs| && |cs| < MAX_AGENTS {
        assert once[|cs|].id == o.id;
      } else if i < |cs| {
        assert once[i].id == o.id;
      }
    } else {
      assert forall i :: 0 <= i < |once| ==> |once[i].id| <= ID_LENGTH;
    }
  }

  // ---------------------------------------------------------------- the array

  datatype Status = Done | Full | NotFound

  lemma RunSnoc(history: seq<Op>, op: Op)
    ensures Run(history + [op]) == Step(Run(history), op)
  {
    assert (history + [op])[..|history|] == history;
  }

  class AgentTable {
    const agents: array<Card>
    var count: nat
    var taskCounter: nat
    ghost var history: seq<Op>

    /** The array is what the operations so far make of an empty list. */
    ghost predicate Valid()
      reads this, agents
    {
      agents.Length == MAX_AGENTS && count <= MAX_AGENTS && agents[..count] == Run(history)
    }

    constructor ()
      ensures Valid() && count == 0 && taskCounter == 1 && history == [] && fresh(agents)
    {
      agents := new Card[MAX_AGENTS](_ => Card("", "", "", "", 0, 0, false));
      count, taskCounter, history := 0, 1, [];
    }

    /** The number of the next task or generated id; tasks and agents share the counter. */
    method NextNumber() returns (n: nat)
      modifies this`taskCounter
      ensures n == old(taskCounter) && taskCounter == (n + 1) % (ULONG_MAX + 1)
    {
      n := taskCounter;
      taskCounter := (taskCounter + 1) % (ULONG_MAX + 1);
    }

    method Scan(id: string) returns (i: nat)
      requires Valid()
      ensures i == IndexOf(agents[..count], id)
    {
      hide IndexOf;
      i := 0;
      while i < count
        invariant i <= count
        invariant forall j :: 0 <= j < i ==> agents[j].id != id
      {
        if agents[i].id == id {
          return;
        }
        i := i + 1;
      }
    }

    /** The registration that happens now: with the id and the text that the table would supply. */
    ghost function Registration(o: Offer): Op
      requires Valid()
      reads this, agents
    {
      Op.Register(o, GeneratedId(count, taskCounter), if count < MAX_AGENTS then agents[count].capabilities else "")
    }

    /** Registers a card, or merges it into the card with the same id. */
    method Register(o: Offer) returns (r: Status)
      requires Valid()
      modifies this`count, this`taskCounter, this`history, agents
      ensures Valid()
      ensures history == old(history) + [old(Registration(o))]
      ensures r == if old(count) == MAX_AGENTS && (o.id == "" || IndexOf(old(agents[..count]), o.id) == old(count))
                   then Full else Done
      ensures taskCounter == if o.id == "" && r == Done then (old(taskCounter) + 1) % (ULONG_MAX + 1)
                             else old(taskCounter)
    {
      hide IndexOf, Run, GeneratedId, Truncate;
      ghost var cs, op := agents[..count], Registration(o);
      RunSnoc(history, op);
      if o.id != "" {
        var i := Scan(o.id);
        if i < count {
          agents[i] := Filled(o, agents[i].id, Merge(agents[i].mask, o.mask), agents[i].capabilities);
          history := history + [op];
          return Done;
        }
      }
      history := history + [op];
      if count >= MAX_AGENTS {
        return Full;
      }
      var id := Truncate(o.id, ID_LENGTH);
      if o.id == "" {
        var number := NextNumber();
        id := GeneratedId(count, number);
      }
      agents[count] := Filled(o, id, o.mask, agents[count].capabilities);
      ghost var added := agents[count];
      count := count + 1;
      assert agents[..count] == cs + [added];
      return Done;
    }

    method Unregister(id: string) returns (r: Status)
      requires Valid()
      modifies this`count, this`history, agents
      ensures Valid() && history == old(history) + [Op.Unregister(id)]
      ensures r == if IndexOf(old(agents[..count]), id) < old(count) then Done else NotFound
    {
      hide IndexOf, Run;
      ghost var cs := agents[..count];
      RunSnoc(history, Op.Unregister(id));
      var i := Scan(id);
      history := history + [Op.Unregister(id)];
      if i == count {
        return NotFound;
      }
      if i < count - 1 {
        agents[i] := agents[count - 1];
      }
      count := count - 1;
      assert agents[..count] == cs[i := cs[|cs| - 1]][..|cs| - 1];
      return Done;
    }

    /** The card of an agent. */
    method Get(id: string) returns (r: Option<Card>)
      requires Valid()
      ensures var i := IndexOf(agents[..count], id);
              r == if i < count then Some(agents[i]) else None
    {
      hide IndexOf;
      var i := Scan(id);
      r := if i < count then Some(agents[i]) else None;
    }
  }
}
