/** The asset service: validating a batch of requisitions against stock and
    assigning the accepted ones to a user. */
module Assets {
  import opened Wrappers
  import opened Seqs
  import opened Models

  /** The asset table, rows in primary-key order. */
  type Table = seq<Asset>

  predicate UniqueIds(t: Table) {
    forall i, j :: 0 <= i < j < |t| ==> t[i].id != t[j].id
  }

  /** What the table keeps true: one row per id, every row within its bounds
      (each row went through `Asset.save`). */
  predicate TableValid(t: Table) {
    UniqueIds(t) && forall i :: 0 <= i < |t| ==> AssetValid(t[i])
  }

  /** `get_asset_by_id`: the row with that id, or nothing. */
  function GetAssetById(t: Table, id: AssetId): (r: Option<Asset>)
    ensures r.Some? <==> exists k :: 0 <= k < |t| && t[k].id == id
    ensures r.Some? ==> r.value.id == id && r.value in t
    ensures UniqueIds(t) ==> forall k :: 0 <= k < |t| && t[k].id == id ==> r == Some(t[k])
  {
    if |t| == 0 then None
    else if t[0].id == id then Some(t[0])
    else
      var r := GetAssetById(t[1..], id);
      assert forall k :: 1 <= k < |t| ==> t[k] == t[1..][k - 1];
      r
  }

  /** `check_qunatity_greater_than_zero`. */
  predicate QuantityGreaterThanZero(q: int) {
    q > 0
  }

  /** `validate_requisition_quantity`: stock covers the request. There is no
      lower bound. */
  predicate RequisitionQuantityValid(a: Asset, q: int) {
    a.quantity >= q
  }

  // ---------------------------------------------------------------------------
  // Validating requisitions
  // ---------------------------------------------------------------------------

  datatype Requisition = Requisition(assetId: AssetId, quantity: int)

  /** Where one requisition lands: the asset is missing, the stock is
      insufficient, or it is accepted against the asset as fetched. */
  datatype Placement = Missing | OverQuantity | Fits(asset: Asset)

  function Place(t: Table, r: Requisition): Placement {
    match GetAssetById(t, r.assetId)
    case None => Missing
    case Some(a) => if RequisitionQuantityValid(a, r.quantity) then Fits(a) else OverQuantity
  }

  /** The ids of the requisitions whose asset is missing, in input order. */
  function NotFoundIds(t: Table, reqs: seq<Requisition>): seq<AssetId> {
    Map((r: Requisition) => r.assetId, Filter((r: Requisition) => Place(t, r).Missing?, reqs))
  }

  /** The ids of the requisitions that exceed stock, in input order. */
  function OverQuantityIds(t: Table, reqs: seq<Requisition>): seq<AssetId> {
    Map((r: Requisition) => r.assetId, Filter((r: Requisition) => Place(t, r).OverQuantity?, reqs))
  }

  /** The accepted requisitions, with their multiplicity. */
  function AcceptedRows(t: Table, reqs: seq<Requisition>): seq<Requisition> {
    Filter((r: Requisition) => Place(t, r).Fits?, reqs)
  }

  /** `(asset, quantity)` is the pair an accepted requisition produces. */
  predicate AcceptedPair(t: Table, reqs: seq<Requisition>, p: (Asset, int)) {
    exists k :: 0 <= k < |reqs| && Place(t, reqs[k]) == Fits(p.0) && reqs[k].quantity == p.1
  }

  /** The three accumulators of the validation loop. */
  datatype Tally = Tally(notFound: seq<AssetId>, overQuantity: seq<AssetId>, accepted: seq<(Asset, int)>)

  /** One iteration of the validation loop. */
  function TallyOne(prev: Tally, t: Table, req: Requisition): Tally {
    match Place(t, req)
    case Missing => Tally(prev.notFound + [req.assetId], prev.overQuantity, prev.accepted)
    case OverQuantity => Tally(prev.notFound, prev.overQuantity + [req.assetId], prev.accepted)
    case Fits(a) =>
      if (a, req.quantity) in prev.accepted then prev
      else Tally(prev.notFound, prev.overQuantity, prev.accepted + [(a, req.quantity)])
  }

  /** How the two error lists grow by one requisition. */
  lemma ErrorListsSnoc(t: Table, reqs: seq<Requisition>)
    requires |reqs| > 0
    ensures var n := |reqs| - 1;
            && NotFoundIds(t, reqs) == NotFoundIds(t, reqs[..n]) + (if Place(t, reqs[n]).Missing? then [reqs[n].assetId] else [])
            && OverQuantityIds(t, reqs) == OverQuantityIds(t, reqs[..n]) + (if Place(t, reqs[n]).OverQuantity? then [reqs[n].assetId] else [])
  {
    var n := |reqs| - 1;
    assert reqs == reqs[..n] + [reqs[n]];
    FilterMapSnoc((r: Requisition) => r.assetId, (r: Requisition) => Place(t, r).Missing?, reqs[..n], reqs[n]);
    FilterMapSnoc((r: Requisition) => r.assetId, (r: Requisition) => Place(t, r).OverQuantity?, reqs[..n], reqs[n]);
  }

  /** How the accepted pairs grow by one requisition. */
  lemma AcceptedPairSnoc(t: Table, reqs: seq<Requisition>)
    requires |reqs| > 0
    ensures var n := |reqs| - 1;
            forall p :: AcceptedPair(t, reqs, p) <==>
                          AcceptedPair(t, reqs[..n], p) || (Place(t, reqs[n]) == Fits(p.0) && reqs[n].quantity == p.1)
  {
    var n := |reqs| - 1;
    forall p ensures AcceptedPair(t, reqs, p) ==>
                       AcceptedPair(t, reqs[..n], p) || (Place(t, reqs[n]) == Fits(p.0) && reqs[n].quantity == p.1)
    {
      if AcceptedPair(t, reqs, p) {
        var k :| 0 <= k < |reqs| && Place(t, reqs[k]) == Fits(p.0) && reqs[k].quantity == p.1;
        if k < n {
          assert reqs[..n][k] == reqs[k];
        }
      }
    }
    forall p | AcceptedPair(t, reqs[..n], p) ensures AcceptedPair(t, reqs, p) {
      var k :| 0 <= k < n && Place(t, reqs[..n][k]) == Fits(p.0) && reqs[..n][k].quantity == p.1;
      assert reqs[k] == reqs[..n][k];
    }
  }

  /** The accumulators describe the requisitions seen so far. */
  ghost predicate TallyDescribes(tally: Tally, t: Table, reqs: seq<Requisition>) {
    && tally.notFound == NotFoundIds(t, reqs)
    && tally.overQuantity == OverQuantityIds(t, reqs)
    && NoDuplicates(tally.accepted)
    && forall p :: p in tally.accepted <==> AcceptedPair(t, reqs, p)
  }

  /** One iteration keeps the accepted pairs the set of pairs accepted so
      far. */
  lemma AcceptedStep(prev: Tally, t: Table, reqs: seq<Requisition>)
    requires |reqs| > 0 && NoDuplicates(prev.accepted)
    requires forall p :: p in prev.accepted <==> AcceptedPair(t, reqs[..|reqs| - 1], p)
    ensures var next := TallyOne(prev, t, reqs[|reqs| - 1]);
            NoDuplicates(next.accepted) && forall p :: p in next.accepted <==> AcceptedPair(t, reqs, p)
  {
    AcceptedPairSnoc(t, reqs);
    var req := reqs[|reqs| - 1];
    match Place(t, req)
    case Missing =>
    case OverQuantity =>
    case Fits(a) =>
      if (a, req.quantity) !in prev.accepted {
        AppendFresh(prev.accepted, (a, req.quantity));
      }
  }

  /** One iteration keeps the error lists those of the requisitions seen. */
  lemma ErrorStep(prev: Tally, t: Table, reqs: seq<Requisition>)
    requires |reqs| > 0
    requires prev.notFound == NotFoundIds(t, reqs[..|reqs| - 1])
    requires prev.overQuantity == OverQuantityIds(t, reqs[..|reqs| - 1])
    ensures var next := TallyOne(prev, t, reqs[|reqs| - 1]);
            next.notFound == NotFoundIds(t, reqs) && next.overQuantity == OverQuantityIds(t, reqs)
  {
    ErrorListsSnoc(t, reqs);
    var req := reqs[|reqs| - 1];
    match Place(t, req)
    case Missing =>
      assert prev.overQuantity + [] == prev.overQuantity;
    case OverQuantity =>
      assert prev.notFound + [] == prev.notFound;
    case Fits(_) =>
      assert prev.notFound + [] == prev.notFound;
      assert prev.overQuantity + [] == prev.overQuantity;
  }

  /** One iteration keeps the accumulators describing the requisitions seen. */
  lemma TallyOneStep(prev: Tally, t: Table, reqs: seq<Requisition>)
    requires |reqs| > 0 && TallyDescribes(prev, t, reqs[..|reqs| - 1])
    ensures TallyDescribes(TallyOne(prev, t, reqs[|reqs| - 1]), t, reqs)
  {
    ErrorStep(prev, t, reqs);
    AcceptedStep(prev, t, reqs);
  }

  /** The loop of `validate_requisitions`, one requisition at a time; the
      accepted pairs are collected into a set (a sequence without repeats, in
      first-insertion order). */
  function TallyRequisitions(t: Table, reqs: seq<Requisition>): (r: Tally)
    ensures r.notFound == NotFoundIds(t, reqs)
    ensures r.overQuantity == OverQuantityIds(t, reqs)
    ensures NoDuplicates(r.accepted)
    ensures forall p :: p in r.accepted <==> AcceptedPair(t, reqs, p)
  {
    if |reqs| == 0 then Tally([], [], [])
    else
      var n := |reqs| - 1;
      var prev := TallyRequisitions(t, reqs[..n]);
      TallyOneStep(prev, t, reqs);
      TallyOne(prev, t, reqs[n])
  }

  /** The batch has no error exactly when every requisition fits. */
  lemma NoErrorsIffAllFit(t: Table, reqs: seq<Requisition>)
    ensures (NotFoundIds(t, reqs) == [] && OverQuantityIds(t, reqs) == [])
            <==> forall k :: 0 <= k < |reqs| ==> Place(t, reqs[k]).Fits?
  {
    var missing := Filter((r: Requisition) => Place(t, r).Missing?, reqs);
    var over := Filter((r: Requisition) => Place(t, r).OverQuantity?, reqs);
    if exists k :: 0 <= k < |reqs| && !Place(t, reqs[k]).Fits? {
      var k :| 0 <= k < |reqs| && !Place(t, reqs[k]).Fits?;
      if Place(t, reqs[k]).Missing? {
        assert reqs[k] in missing;
      } else {
        assert reqs[k] in over;
      }
    }
  }

  /** The outcome of `validate_requisitions`: on success only the accepted
      pairs, otherwise only the two error lists. */
  datatype Validation =
    | Accepted(assignments: seq<(Asset, int)>)
    | Rejected(notFound: seq<AssetId>, overQuantity: seq<AssetId>)

  /** `validate_requisitions`: every requisition is checked against the
      stored stock (which the batch does not decrement); the batch succeeds
      exactly when no asset is missing and no requisition exceeds stock. */
  function ValidateRequisitions(t: Table, reqs: seq<Requisition>): (r: Validation)
    ensures r.Accepted? <==> forall k :: 0 <= k < |reqs| ==> Place(t, reqs[k]).Fits?
    ensures r.Rejected? ==> r.notFound == NotFoundIds(t, reqs) && r.overQuantity == OverQuantityIds(t, reqs)
    ensures r.Rejected? ==> |r.notFound| > 0 || |r.overQuantity| > 0
    ensures r.Accepted? ==> NoDuplicates(r.assignments)
    ensures r.Accepted? ==> forall p :: p in r.assignments <==> AcceptedPair(t, reqs, p)
  {
    var tally := TallyRequisitions(t, reqs);
    NoErrorsIffAllFit(t, reqs);
    if |tally.notFound| != 0 || |tally.overQuantity| != 0 then
      Rejected(tally.notFound, tally.overQuantity)
    else
      Accepted(tally.accepted)
  }

  /** Every requisition lands in exactly one of the not-found list, the
      over-quantity list and the accepted rows. */
  lemma {:induction false} Partition(t: Table, reqs: seq<Requisition>)
    ensures |NotFoundIds(t, reqs)| + |OverQuantityIds(t, reqs)| + |AcceptedRows(t, reqs)| == |reqs|
  {
    if |reqs| > 0 {
      var n := |reqs| - 1;
      Partition(t, reqs[..n]);
      FilterLengthSnoc((r: Requisition) => Place(t, r).Missing?, reqs);
      FilterLengthSnoc((r: Requisition) => Place(t, r).OverQuantity?, reqs);
      FilterLengthSnoc((r: Requisition) => Place(t, r).Fits?, reqs);
    }
  }

  /** Zero and negative quantities pass the stock check of an existing asset
      with non-negative stock. */
  lemma NoLowerBound(t: Table, id: AssetId, q: int)
    requires TableValid(t) && GetAssetById(t, id).Some? && q <= 0
    ensures Place(t, Requisition(id, q)) == Fits(GetAssetById(t, id).value)
  {
    var k :| 0 <= k < |t| && t[k].id == id;
    assert AssetValid(t[k]);
  }

  // ---------------------------------------------------------------------------
  // Assigning
  // ---------------------------------------------------------------------------

  /** The asset handed to `user` with `q` units taken off its stock. */
  function Reassigned(a: Asset, user: UserId, q: int): Asset {
    a.(currentOwner := user, quantity := a.quantity - q)
  }

  /** Taking `q` units off `a` leaves a stock its column can hold: not
      negative, and (for a negative `q`) not above 2147483647. */
  predicate RemainderFits(a: Asset, q: int) {
    0 <= a.quantity - q <= MaxQuantity
  }

  /** `assign_asset_to_user`: the asset gets the new owner and loses the
      requested quantity, and is saved through `full_clean`. No ownership
      history is written. */
  function AssignAssetToUser(a: Asset, user: UserId, q: int): (r: Result<Asset, seq<(AssetField, FieldError)>>)
    ensures r.Success? ==> r.value.currentOwner == user && r.value.quantity == a.quantity - q
    ensures r.Success? ==> r.value.(currentOwner := a.currentOwner, quantity := a.quantity) == a
    ensures r.Success? ==> AssetValid(r.value)
    ensures AssetValid(a) ==> (r.Success? <==> RemainderFits(a, q))
  {
    SaveAsset(Reassigned(a, user, q))
  }

  /** Writes a row back: the row with the same id is replaced. */
  function Store(t: Table, a: Asset): (r: Table)
    ensures |r| == |t|
    ensures forall k :: 0 <= k < |t| ==> r[k] == (if t[k].id == a.id then a else t[k])
  {
    seq(|t|, k requires 0 <= k < |t| => if t[k].id == a.id then a else t[k])
  }

  /** Writing back a valid row keeps every id where it was and the table
      valid. */
  lemma StoreKeepsValid(t: Table, a: Asset)
    requires TableValid(t) && AssetValid(a)
    ensures forall k :: 0 <= k < |t| ==> Store(t, a)[k].id == t[k].id
    ensures TableValid(Store(t, a))
  {
    var r := Store(t, a);
    assert forall k :: 0 <= k < |t| ==> r[k].id == t[k].id;
  }

  /** The table after `assign`, and the asset whose save raised, if any (the
      saves before it stay written). */
  datatype AssignOutcome = AssignOutcome(table: Table, failedAt: Option<AssetId>)

  /** `assign`: every accepted pair is applied to the asset as it was fetched
      during validation, and written back over its row. */
  function Assign(t: Table, user: UserId, pairs: seq<(Asset, int)>): AssignOutcome {
    if |pairs| == 0 then AssignOutcome(t, None)
    else
      var prev := Assign(t, user, pairs[..|pairs| - 1]);
      var p := pairs[|pairs| - 1];
      if prev.failedAt.Some? then prev
      else
        match AssignAssetToUser(p.0, user, p.1)
        case Success(a) => AssignOutcome(Store(prev.table, a), None)
        case Failure(_) => AssignOutcome(prev.table, Some(p.0.id))
  }

  /** A pair whose save goes through: a row of the table, with a quantity
      its stock covers and whose remainder the column can hold. */
  predicate Assignable(t: Table, p: (Asset, int)) {
    p.0 in t && RemainderFits(p.0, p.1)
  }

  /** The position of the last pair that names asset `id`, if any. */
  function LastPairFor(pairs: seq<(Asset, int)>, id: AssetId): (r: Option<nat>)
    ensures r.Some? ==> r.value < |pairs| && pairs[r.value].0.id == id
    ensures r.Some? ==> forall j :: r.value < j < |pairs| ==> pairs[j].0.id != id
    ensures r.None? ==> forall j :: 0 <= j < |pairs| ==> pairs[j].0.id != id
  {
    if |pairs| == 0 then None
    else if pairs[|pairs| - 1].0.id == id then Some(|pairs| - 1)
    else
      var r := LastPairFor(pairs[..|pairs| - 1], id);
      assert forall j :: 0 <= j < |pairs| - 1 ==> pairs[..|pairs| - 1][j] == pairs[j];
      r
  }

  /** Row `row` after the pairs are applied: the last pair naming its asset
      wins, as each save overwrites the row with the copy fetched during
      validation. */
  function AssignedRow(row: Asset, user: UserId, pairs: seq<(Asset, int)>): (r: Asset)
    ensures r.id == row.id
  {
    match LastPairFor(pairs, row.id)
    case None => row
    case Some(i) => Reassigned(row, user, pairs[i].1)
  }

  /** A pair for another asset leaves the row as the earlier pairs made it. */
  lemma AssignedRowOther(row: Asset, user: UserId, pairs: seq<(Asset, int)>)
    requires |pairs| > 0 && pairs[|pairs| - 1].0.id != row.id
    ensures AssignedRow(row, user, pairs) == AssignedRow(row, user, pairs[..|pairs| - 1])
  {
    var n := |pairs| - 1;
    match LastPairFor(pairs[..n], row.id)
    case None =>
    case Some(i) => assert pairs[..n][i] == pairs[i];
  }

  /** One more pair: its asset's row is overwritten, the others keep what
      the earlier pairs made of them. */
  lemma AssignRowsStep(t: Table, user: UserId, pairs: seq<(Asset, int)>, prev: Table, a: Asset)
    requires UniqueIds(t) && |pairs| > 0
    requires pairs[|pairs| - 1].0 in t
    requires a == Reassigned(pairs[|pairs| - 1].0, user, pairs[|pairs| - 1].1)
    requires |prev| == |t|
    requires forall k :: 0 <= k < |t| ==> prev[k] == AssignedRow(t[k], user, pairs[..|pairs| - 1])
    ensures forall k :: 0 <= k < |t| ==> Store(prev, a)[k] == AssignedRow(t[k], user, pairs)
  {
    var n := |pairs| - 1;
    var j :| 0 <= j < |t| && t[j] == pairs[n].0;
    forall k | 0 <= k < |t|
      ensures Store(prev, a)[k] == AssignedRow(t[k], user, pairs)
    {
      assert prev[k].id == t[k].id;
      if t[k].id == a.id {
        assert k == j;
      } else {
        AssignedRowOther(t[k], user, pairs);
      }
    }
  }

  /** Once the earlier pairs went through, a pair whose stock covers it is
      saved and written over its row. */
  lemma AssignSnoc(t: Table, user: UserId, pairs: seq<(Asset, int)>)
    requires |pairs| > 0
    requires Assign(t, user, pairs[..|pairs| - 1]).failedAt == None
    requires AssetValid(pairs[|pairs| - 1].0) && RemainderFits(pairs[|pairs| - 1].0, pairs[|pairs| - 1].1)
    ensures var p := pairs[|pairs| - 1];
            Assign(t, user, pairs)
            == AssignOutcome(Store(Assign(t, user, pairs[..|pairs| - 1]).table, Reassigned(p.0, user, p.1)), None)
  {
    var p := pairs[|pairs| - 1];
    assert AssignAssetToUser(p.0, user, p.1) == Success(Reassigned(p.0, user, p.1));
  }

  /** The induction step of `AssignRows`: what held for the earlier pairs
      holds once the last one is applied. */
  lemma AssignRowsExtend(t: Table, user: UserId, pairs: seq<(Asset, int)>)
    requires UniqueIds(t) && |pairs| > 0
    requires var front := Assign(t, user, pairs[..|pairs| - 1]);
             && front.failedAt == None && |front.table| == |t|
             && forall k :: 0 <= k < |t| ==> front.table[k] == AssignedRow(t[k], user, pairs[..|pairs| - 1])
    requires pairs[|pairs| - 1].0 in t && AssetValid(pairs[|pairs| - 1].0)
    requires RemainderFits(pairs[|pairs| - 1].0, pairs[|pairs| - 1].1)
    ensures Assign(t, user, pairs).failedAt == None
    ensures |Assign(t, user, pairs).table| == |t|
    ensures forall k :: 0 <= k < |t| ==> Assign(t, user, pairs).table[k] == AssignedRow(t[k], user, pairs)
  {
    var n := |pairs| - 1;
    var p := pairs[n];
    var prev := Assign(t, user, pairs[..n]).table;
    AssignSnoc(t, user, pairs);
    AssignRowsStep(t, user, pairs, prev, Reassigned(p.0, user, p.1));
  }

  /** Applying assignable pairs to a valid table never fails; every row ends
      as the last pair naming its asset makes it (untouched if none does). */
  lemma {:induction false} AssignRows(t: Table, user: UserId, pairs: seq<(Asset, int)>)
    requires UniqueIds(t)
    requires forall i :: 0 <= i < |pairs| ==> Assignable(t, pairs[i])
    requires forall k :: 0 <= k < |t| ==> AssetValid(t[k])
    ensures Assign(t, user, pairs).failedAt == None
    ensures |Assign(t, user, pairs).table| == |t|
    ensures forall k :: 0 <= k < |t| ==> Assign(t, user, pairs).table[k] == AssignedRow(t[k], user, pairs)
  {
    if |pairs| > 0 {
      var n := |pairs| - 1;
      var front := pairs[..n];
      assert forall i :: 0 <= i < n ==> front[i] == pairs[i];
      AssignRows(t, user, front);
      assert Assignable(t, pairs[n]);
      var j :| 0 <= j < |t| && t[j] == pairs[n].0;
      AssignRowsExtend(t, user, pairs);
    } else {
      forall k | 0 <= k < |t| ensures AssignedRow(t[k], user, pairs) == t[k] {
        assert LastPairFor(pairs, t[k].id) == None;
      }
    }
  }

  /** An assignable pair applied to a valid row keeps it valid. */
  lemma AssignedRowValid(t: Table, user: UserId, pairs: seq<(Asset, int)>, k: int)
    requires UniqueIds(t) && 0 <= k < |t| && AssetValid(t[k])
    requires forall i :: 0 <= i < |pairs| ==> Assignable(t, pairs[i])
    ensures AssetValid(AssignedRow(t[k], user, pairs))
    ensures AssignedRow(t[k], user, pairs).id == t[k].id
  {
    match LastPairFor(pairs, t[k].id)
    case None =>
    case Some(i) =>
      assert Assignable(t, pairs[i]);
      var m :| 0 <= m < |t| && t[m] == pairs[i].0;
      assert m == k;
  }

  /** Every pair an accepted validation hands over is a valid row of the
      table with a quantity its stock covers. */
  lemma AcceptedCovered(t: Table, reqs: seq<Requisition>, pairs: seq<(Asset, int)>)
    requires TableValid(t)
    requires ValidateRequisitions(t, reqs) == Accepted(pairs)
    ensures forall i :: 0 <= i < |pairs| ==> pairs[i].0 in t && AssetValid(pairs[i].0) && pairs[i].1 <= pairs[i].0.quantity
  {
    forall i | 0 <= i < |pairs| ensures pairs[i].0 in t && AssetValid(pairs[i].0) && pairs[i].1 <= pairs[i].0.quantity {
      assert pairs[i] in pairs;
      assert AcceptedPair(t, reqs, pairs[i]);
    }
  }

  /** The requisition fits the stored stock, and what it leaves the column
      can hold, so its save goes through. */
  predicate SavesCleanly(t: Table, r: Requisition) {
    match Place(t, r)
    case Fits(a) => RemainderFits(a, r.quantity)
    case _ => false
  }

  /** The accepted pairs all save exactly when every requisition saves
      cleanly. */
  lemma AcceptedPairsFit(t: Table, reqs: seq<Requisition>, pairs: seq<(Asset, int)>)
    requires ValidateRequisitions(t, reqs) == Accepted(pairs)
    ensures (forall i :: 0 <= i < |pairs| ==> RemainderFits(pairs[i].0, pairs[i].1))
            <==> forall k :: 0 <= k < |reqs| ==> SavesCleanly(t, reqs[k])
  {
    if forall i :: 0 <= i < |pairs| ==> RemainderFits(pairs[i].0, pairs[i].1) {
      forall k | 0 <= k < |reqs| ensures SavesCleanly(t, reqs[k]) {
        var a := Place(t, reqs[k]).asset;
        assert AcceptedPair(t, reqs, (a, reqs[k].quantity));
        var i :| 0 <= i < |pairs| && pairs[i] == (a, reqs[k].quantity);
      }
    }
    if forall k :: 0 <= k < |reqs| ==> SavesCleanly(t, reqs[k]) {
      forall i | 0 <= i < |pairs| ensures RemainderFits(pairs[i].0, pairs[i].1) {
        assert pairs[i] in pairs;
        var k :| 0 <= k < |reqs| && Place(t, reqs[k]) == Fits(pairs[i].0) && reqs[k].quantity == pairs[i].1;
        assert SavesCleanly(t, reqs[k]);
      }
    }
  }

  /** Whatever the pairs, the table stays valid: every row written went
      through `full_clean`, and rows keep their ids. */
  lemma {:induction false} AssignKeepsValid(t: Table, user: UserId, pairs: seq<(Asset, int)>)
    requires TableValid(t)
    ensures |Assign(t, user, pairs).table| == |t|
    ensures forall k :: 0 <= k < |t| ==> Assign(t, user, pairs).table[k].id == t[k].id
    ensures TableValid(Assign(t, user, pairs).table)
  {
    if |pairs| > 0 {
      var n := |pairs| - 1;
      AssignKeepsValid(t, user, pairs[..n]);
      var prev := Assign(t, user, pairs[..n]);
      var p := pairs[n];
      if prev.failedAt.None? {
        match AssignAssetToUser(p.0, user, p.1)
        case Success(a) =>
          StoreKeepsValid(prev.table, a);
        case Failure(_) =>
      }
    }
  }

  /** The saves of the pairs whose assets are valid all go through exactly
      when each pair leaves a remainder the column can hold; the first pair
      that does not stops the assignment. */
  lemma {:induction false} AssignSucceedsIff(t: Table, user: UserId, pairs: seq<(Asset, int)>)
    requires forall i :: 0 <= i < |pairs| ==> AssetValid(pairs[i].0)
    ensures Assign(t, user, pairs).failedAt == None <==> forall i :: 0 <= i < |pairs| ==> RemainderFits(pairs[i].0, pairs[i].1)
  {
    if |pairs| > 0 {
      var n := |pairs| - 1;
      assert forall i :: 0 <= i < n ==> pairs[..n][i] == pairs[i];
      AssignSucceedsIff(t, user, pairs[..n]);
    }
  }

  /** Assignable pairs applied to a valid table: no save fails and the table
      stays valid, so no stock goes below zero. */
  lemma AssignValidPairs(t: Table, user: UserId, pairs: seq<(Asset, int)>)
    requires TableValid(t)
    requires forall i :: 0 <= i < |pairs| ==> Assignable(t, pairs[i])
    ensures Assign(t, user, pairs).failedAt == None
    ensures |Assign(t, user, pairs).table| == |t|
    ensures TableValid(Assign(t, user, pairs).table)
  {
    AssignKeepsValid(t, user, pairs);
    forall i | 0 <= i < |pairs| ensures AssetValid(pairs[i].0) {
      assert Assignable(t, pairs[i]);
    }
    AssignSucceedsIff(t, user, pairs);
  }

  /** With one assignable pair per asset, each named row ends up exactly its
      stored row handed to the user with the requested units taken off. */
  lemma AssignDistinctPairs(t: Table, user: UserId, pairs: seq<(Asset, int)>)
    requires TableValid(t)
    requires forall i :: 0 <= i < |pairs| ==> Assignable(t, pairs[i])
    requires forall i, j :: 0 <= i < j < |pairs| ==> pairs[i].0.id != pairs[j].0.id
    ensures |Assign(t, user, pairs).table| == |t|
    ensures forall i, k :: 0 <= i < |pairs| && 0 <= k < |t| && t[k].id == pairs[i].0.id ==>
              Assign(t, user, pairs).table[k] == Reassigned(t[k], user, pairs[i].1)
  {
    AssignRows(t, user, pairs);
    var out := Assign(t, user, pairs).table;
    forall i, k | 0 <= i < |pairs| && 0 <= k < |t| && t[k].id == pairs[i].0.id
      ensures out[k] == Reassigned(t[k], user, pairs[i].1)
    {
      LastPairOfDistinct(pairs, i);
      assert out[k] == AssignedRow(t[k], user, pairs);
    }
  }

  /** When no two pairs name one asset, the last pair naming a pair's asset
      is that pair itself. */
  lemma LastPairOfDistinct(pairs: seq<(Asset, int)>, i: int)
    requires 0 <= i < |pairs|
    requires forall i, j :: 0 <= i < j < |pairs| ==> pairs[i].0.id != pairs[j].0.id
    ensures LastPairFor(pairs, pairs[i].0.id) == Some(i)
  {
    match LastPairFor(pairs, pairs[i].0.id)
    case None =>
    case Some(v) =>
  }

  /** After a successful validation of a valid table, the table stays valid,
      so no stock goes negative, even when two requisitions name one asset
      (the later write wins). The saves all go through exactly when every
      requisition also leaves a remainder the column can hold: validation
      has no lower bound, so a large negative requisition passes it and then
      makes its save raise. */
  lemma AssignAfterValidation(t: Table, user: UserId, reqs: seq<Requisition>, pairs: seq<(Asset, int)>)
    requires TableValid(t)
    requires ValidateRequisitions(t, reqs) == Accepted(pairs)
    ensures TableValid(Assign(t, user, pairs).table)
    ensures Assign(t, user, pairs).failedAt == None <==> forall k :: 0 <= k < |reqs| ==> SavesCleanly(t, reqs[k])
  {
    AssignKeepsValid(t, user, pairs);
    AcceptedCovered(t, reqs, pairs);
    AssignSucceedsIff(t, user, pairs);
    AcceptedPairsFit(t, reqs, pairs);
  }

  /** A stored cable with five units in stock. */
  const ExampleCable := Asset(1, "Patch cable", None, 5, 0, 1, "Store", "Acme")

  /** Two identical requisitions of four units collapse into one accepted
      pair, so the batch is accepted and only four units leave the stock. */
  lemma RepeatedRequisitionCountsOnce(user: UserId)
    ensures var reqs := [Requisition(1, 4), Requisition(1, 4)];
            ValidateRequisitions([ExampleCable], reqs) == Accepted([(ExampleCable, 4)])
            && Assign([ExampleCable], user, [(ExampleCable, 4)]).table == [Reassigned(ExampleCable, user, 4)]
  {
    var t := [ExampleCable];
    var reqs := [Requisition(1, 4), Requisition(1, 4)];
    assert Place(t, reqs[0]) == Fits(ExampleCable);
    assert reqs[..1] == [reqs[0]];
    assert TallyRequisitions(t, reqs[..1]).accepted == [(ExampleCable, 4)];
    assert TallyRequisitions(t, reqs) == Tally([], [], [(ExampleCable, 4)]);
    AssignValidPairs(t, user, [(ExampleCable, 4)]);
  }

  /** Requisitions of four and of three units on a five-unit stock each pass
      on their own, so both pairs are accepted and seven units are handed out
      of five. Whichever order the set yields them in, both saves go through
      and the stock ends at five minus the pair applied last: two or one. */
  lemma SplitRequisitionsOverbook(user: UserId)
    ensures var reqs := [Requisition(1, 4), Requisition(1, 3)];
            var v := ValidateRequisitions([ExampleCable], reqs);
            v.Accepted? && multiset(v.assignments) == multiset{(ExampleCable, 4), (ExampleCable, 3)}
    ensures var inOrder := [(ExampleCable, 4), (ExampleCable, 3)];
            Assign([ExampleCable], user, inOrder) == AssignOutcome([Reassigned(ExampleCable, user, 3)], None)
    ensures var reversed := [(ExampleCable, 3), (ExampleCable, 4)];
            Assign([ExampleCable], user, reversed) == AssignOutcome([Reassigned(ExampleCable, user, 4)], None)
  {
    var t := [ExampleCable];
    var reqs := [Requisition(1, 4), Requisition(1, 3)];
    var pairs := [(ExampleCable, 4), (ExampleCable, 3)];
    assert Place(t, reqs[0]) == Fits(ExampleCable);
    assert Place(t, reqs[1]) == Fits(ExampleCable);
    assert reqs[..1] == [reqs[0]];
    assert TallyRequisitions(t, reqs[..1]).accepted == [(ExampleCable, 4)];
    assert TallyRequisitions(t, reqs) == Tally([], [], pairs);
    AppliedLastWins(user, pairs);
    AppliedLastWins(user, [(ExampleCable, 3), (ExampleCable, 4)]);
  }

  /** Two covered pairs on the cable: both saves go through and the row is
      the one the second pair writes. */
  lemma AppliedLastWins(user: UserId, pairs: seq<(Asset, int)>)
    requires |pairs| == 2 && pairs[0].0 == ExampleCable && pairs[1].0 == ExampleCable
    requires 0 <= pairs[0].1 <= 5 && 0 <= pairs[1].1 <= 5
    ensures Assign([ExampleCable], user, pairs) == AssignOutcome([Reassigned(ExampleCable, user, pairs[1].1)], None)
  {
    var t := [ExampleCable];
    assert pairs[..1] == [pairs[0]];
    assert Assign(t, user, pairs[..1]) == AssignOutcome([Reassigned(ExampleCable, user, pairs[0].1)], None);
  }

  /** A requisition of -2147483643 units on the five-unit cable passes
      validation (there is no lower bound), but the stock it would leave,
      2147483648, is one above what the column holds: the save raises and
      the row stays as it was. */
  lemma HugeNegativeRequisitionFails(user: UserId)
    ensures var reqs := [Requisition(1, -2147483643)];
            var v := ValidateRequisitions([ExampleCable], reqs);
            && v == Accepted([(ExampleCable, -2147483643)])
            && Assign([ExampleCable], user, v.assignments) == AssignOutcome([ExampleCable], Some(1))
  {
    var t := [ExampleCable];
    var reqs := [Requisition(1, -2147483643)];
    assert Place(t, reqs[0]) == Fits(ExampleCable);
    assert reqs[..0] == [];
    assert TallyRequisitions(t, reqs) == Tally([], [], [(ExampleCable, -2147483643)]);
    assert !RemainderFits(ExampleCable, -2147483643);
  }
}
