/** The asset and asset-type endpoints: who may call which action, the
    ownership guard on single assets, the listing, asset creation, the
    asset-code lookup and the assignment flow. */
module Views {
  import opened Wrappers
  import opened Seqs
  import opened Sorting
  import opened Models
  import opened Assets
  import opened Users
  import opened Permissions

  // ---------------------------------------------------------------------------
  // Requests and replies
  // ---------------------------------------------------------------------------

  /** Who sends a request: nobody signed in, or a user with their group names. */
  datatype Requester = Anonymous | SignedIn(user: User, groups: set<GroupName>)

  /** The group names the permission classes see (an anonymous user has none). */
  function RequesterGroups(r: Requester): set<GroupName> {
    if r.SignedIn? then r.groups else {}
  }

  /** `IsAuthenticated`. */
  predicate IsAuthenticated(r: Requester) {
    r.SignedIn?
  }

  /** The framework's `IsAdminUser`, imported under the name `IsSuperUser`: it
      looks at the staff flag, not at the superuser flag. */
  predicate IsSuperUser(r: Requester) {
    r.SignedIn? && r.user.isStaff
  }

  predicate IsAdmin(r: Requester) {
    IsAssetAdmin(RequesterGroups(r))
  }

  predicate IsModerator(r: Requester) {
    IsAssetModerator(RequesterGroups(r))
  }

  /** The status of a reply. */
  datatype Reply = Ok200 | Created201 | BadRequest400 | Denied403 | NotFound404 | ServerError500

  // ---------------------------------------------------------------------------
  // Permission tables
  // ---------------------------------------------------------------------------

  datatype Action = Create | Update | PartialUpdate | Destroy | List | Retrieve

  predicate IsWrite(a: Action) {
    a.Create? || a.Update? || a.PartialUpdate? || a.Destroy?
  }

  /** The routes that carry a permission decision: the model actions of the
      two viewsets and their two extra actions. */
  datatype Endpoint =
    | AssetTypes(action: Action)   // AssetTypeViewSet
    | AssetTypeCode                // AssetTypeViewSet.get_code
    | Assets(action: Action)       // AssetViewSet
    | AssetAssign                  // AssetViewSet.assign

  /** The outcome of `get_permissions` (or of the action's own permission
      classes) for one request. */
  function Allowed(e: Endpoint, r: Requester): (ok: bool)
    ensures ok ==> IsAuthenticated(r)
    ensures IsAuthenticated(r) && (IsAdmin(r) || IsSuperUser(r)) ==> ok
    ensures ok ==> (e.Assets? && !IsWrite(e.action)) || IsAdmin(r) || IsModerator(r) || IsSuperUser(r)
    ensures e.AssetTypes? && IsWrite(e.action) && ok ==> IsAdmin(r) || IsSuperUser(r)
    ensures IsAuthenticated(r) && e.Assets? && !IsWrite(e.action) ==> ok
  {
    match e
    case AssetTypes(a) =>
      if IsWrite(a) then IsAuthenticated(r) && (IsAdmin(r) || IsSuperUser(r))
      else IsAuthenticated(r) && (IsModerator(r) || IsAdmin(r) || IsSuperUser(r))
    case AssetTypeCode =>
      IsAuthenticated(r) && (IsModerator(r) || IsAdmin(r) || IsSuperUser(r))
    case Assets(a) =>
      if IsWrite(a) then IsAuthenticated(r) && (IsModerator(r) || IsAdmin(r) || IsSuperUser(r))
      else IsAuthenticated(r)
    case AssetAssign =>
      IsAuthenticated(r) && ((IsAdmin(r) || IsModerator(r)) || IsSuperUser(r))
  }

  /** A decision depends only on being signed in, the staff flag and the
      admin and moderator groups: any other group, "Asset User" included,
      changes nothing. */
  lemma DecidedByRoles(e: Endpoint, r1: Requester, r2: Requester)
    requires r1.SignedIn? && r2.SignedIn? && r1.user.isStaff == r2.user.isStaff
    requires IsAdmin(r1) == IsAdmin(r2) && IsModerator(r1) == IsModerator(r2)
    ensures Allowed(e, r1) == Allowed(e, r2)
  {
  }

  /** Nobody signed in may call anything. */
  lemma AnonymousDenied(e: Endpoint)
    ensures !Allowed(e, Anonymous)
  {
  }

  /** A plain "Asset User" (not staff) may list and retrieve assets and do
      nothing else. */
  lemma PlainUserAccess(e: Endpoint, u: User)
    requires !u.isStaff
    ensures Allowed(e, SignedIn(u, {AssetUserGroup})) <==> e.Assets? && (e.action.List? || e.action.Retrieve?)
  {
    assert !IsAssetAdmin({AssetUserGroup}) && !IsAssetModerator({AssetUserGroup});
  }

  /** A moderator (not staff, not admin) may do everything except write asset
      types. */
  lemma ModeratorAccess(e: Endpoint, u: User)
    requires !u.isStaff
    ensures Allowed(e, SignedIn(u, {AssetModeratorGroup})) <==> !(e.AssetTypes? && IsWrite(e.action))
  {
    assert !IsAssetAdmin({AssetModeratorGroup}) && IsAssetModerator({AssetModeratorGroup});
  }

  /** Asset types are guarded at least as strictly as assets, action by
      action. */
  lemma AssetTypesStricter(a: Action, r: Requester)
    ensures Allowed(AssetTypes(a), r) ==> Allowed(Assets(a), r)
  {
  }

  // ---------------------------------------------------------------------------
  // Single assets and the listing
  // ---------------------------------------------------------------------------

  /** `AssetViewSet.get_object`: a missing asset is a 404; an "Asset User"
      may only reach the assets they own (a 403 otherwise); everyone else
      reaches every asset. */
  function GetObject(u: UserId, groups: set<GroupName>, t: Table, pk: AssetId): (r: Result<Asset, Reply>)
    ensures r == Failure(NotFound404) <==> GetAssetById(t, pk).None?
    ensures r == Failure(Denied403) <==>
              GetAssetById(t, pk).Some? && IsAssetNormalUser(groups) && GetAssetById(t, pk).value.currentOwner != u
    ensures r.Failure? ==> r == Failure(NotFound404) || r == Failure(Denied403)
    ensures r.Success? ==> r.value.id == pk && r.value in t
    ensures r.Success? && IsAssetNormalUser(groups) ==> r.value.currentOwner == u
  {
    match GetAssetById(t, pk)
    case None => Failure(NotFound404)
    case Some(a) =>
      if IsAssetNormalUser(groups) then
        if a.currentOwner == u then Success(a) else Failure(Denied403)
      else Success(a)
  }

  /** The actions that address one asset: their permission check runs first,
      then `get_object`. */
  datatype DetailAction = RetrieveOne | UpdateOne | PartialUpdateOne | DestroyOne

  function ActionOf(d: DetailAction): Action {
    match d
    case RetrieveOne => Retrieve
    case UpdateOne => Update
    case PartialUpdateOne => PartialUpdate
    case DestroyOne => Destroy
  }

  /** The asset a detail action works on, or the reply that stops it. */
  function Target(r: Requester, d: DetailAction, t: Table, pk: AssetId): (res: Result<Asset, Reply>)
    ensures !Allowed(Assets(ActionOf(d)), r) ==> res == Failure(Denied403)
    ensures Allowed(Assets(ActionOf(d)), r) ==> res == GetObject(r.user.id, r.groups, t, pk)
    ensures res.Success? ==> res.value.id == pk && res.value in t
  {
    if !Allowed(Assets(ActionOf(d)), r) then Failure(Denied403)
    else GetObject(r.user.id, r.groups, t, pk)
  }

  /** The quantity key of the descending order. */
  function DescendingQuantity(a: Asset): int {
    -a.quantity
  }

  /** Whether a row is shown to `u`: an "Asset User" sees only their own. */
  predicate Visible(u: UserId, groups: set<GroupName>, a: Asset) {
    IsAssetNormalUser(groups) ==> a.currentOwner == u
  }

  /** `AssetViewSet.get_queryset`: the visible rows, each as often as it is
      stored, by descending quantity (ties in some fixed order). */
  function Queryset(u: UserId, groups: set<GroupName>, t: Table): (r: seq<Asset>)
    ensures forall a :: a in r <==> a in t && Visible(u, groups, a)
    ensures !IsAssetNormalUser(groups) ==> multiset(r) == multiset(t)
    ensures IsAssetNormalUser(groups) ==> multiset(r) == multiset(Filter((a: Asset) => a.currentOwner == u, t))
    ensures forall i, j :: 0 <= i < j < |r| ==> r[i].quantity >= r[j].quantity
  {
    var rows := if IsAssetNormalUser(groups) then Filter((a: Asset) => a.currentOwner == u, t) else t;
    var r := SortBy(DescendingQuantity, rows);
    assert forall a :: a in r <==> a in rows by {
      forall a ensures a in r <==> a in rows {
        assert a in r <==> a in multiset(r);
        assert a in rows <==> a in multiset(rows);
      }
    }
    r
  }

  /** The listing: any signed-in user gets their queryset. */
  function ListAssets(r: Requester, t: Table): (res: Result<seq<Asset>, Reply>)
    ensures res.Failure? <==> !IsAuthenticated(r)
    ensures res.Failure? ==> res.error == Denied403
    ensures res.Success? ==> forall a :: a in res.value <==> a in t && Visible(r.user.id, r.groups, a)
    ensures res.Success? ==> multiset(res.value)
                             == multiset(if IsAssetNormalUser(r.groups) then Filter((a: Asset) => a.currentOwner == r.user.id, t) else t)
    ensures res.Success? ==> forall i, j :: 0 <= i < j < |res.value| ==> res.value[i].quantity >= res.value[j].quantity
  {
    if !Allowed(Assets(List), r) then Failure(Denied403)
    else Success(Queryset(r.user.id, r.groups, t))
  }

  /** What a signed-in user lists is exactly what they can retrieve one by
      one. */
  lemma ListedIffRetrievable(r: Requester, t: Table, k: int)
    requires r.SignedIn? && UniqueIds(t) && 0 <= k < |t|
    ensures ListAssets(r, t).Success?
    ensures t[k] in ListAssets(r, t).value <==> Target(r, RetrieveOne, t, t[k].id) == Success(t[k])
  {
  }

  // ---------------------------------------------------------------------------
  // Creating an asset
  // ---------------------------------------------------------------------------

  /** The first superuser in primary-key order (`filter(is_superuser=True).first()`). */
  function FirstSuperuser(users: seq<User>): (r: Option<User>)
    ensures r.None? <==> forall k :: 0 <= k < |users| ==> !users[k].isSuperuser
    ensures r.Some? ==> exists k :: 0 <= k < |users| && users[k] == r.value && r.value.isSuperuser
                                  && forall j :: 0 <= j < k ==> !users[j].isSuperuser
  {
    if |users| == 0 then None
    else if users[0].isSuperuser then Some(users[0])
    else
      var r := FirstSuperuser(users[1..]);
      assert forall k :: 1 <= k < |users| ==> users[k] == users[1..][k - 1];
      if r.Some? then
        var k :| 0 <= k < |users[1..]| && users[1..][k] == r.value && r.value.isSuperuser
                 && forall j :: 0 <= j < k ==> !users[1..][j].isSuperuser;
        assert users[k + 1] == r.value;
        r
      else r
  }

  /** The key the database gives the next row: above every key in use. */
  function NextId(t: Table): (id: AssetId)
    ensures id >= 1
    ensures forall k :: 0 <= k < |t| ==> t[k].id < id
  {
    if |t| == 0 then 1
    else
      var m := NextId(t[..|t| - 1]);
      assert forall k :: 0 <= k < |t| - 1 ==> t[k] == t[..|t| - 1][k];
      if t[|t| - 1].id >= m then t[|t| - 1].id + 1 else m
  }

  /** The submitted asset stored under key `id` and owned by `owner`. */
  function Stored(proposed: Asset, id: AssetId, owner: UserId): Asset {
    Asset(id, proposed.name, proposed.description, proposed.quantity, owner,
          proposed.assetType, proposed.location, proposed.manufacturer)
  }

  /** The submitted asset as the serializer hands it on: its text fields
      stripped of surrounding whitespace (a text that is all whitespace
      becomes empty). */
  function Submitted(proposed: Asset): Asset {
    proposed.(name := Strip(proposed.name),
              description := if proposed.description.None? then None else Some(Strip(proposed.description.value)),
              location := Strip(proposed.location),
              manufacturer := Strip(proposed.manufacturer))
  }

  /** The framework's text field refuses a text holding a NUL character,
      whatever the model field allows. */
  predicate NulFree(s: string) {
    '\0' !in s
  }

  /** Every text field of the submitted asset passes the serializer's NUL
      check. */
  predicate AssetTextsNulFree(a: Asset) {
    NulFree(a.name) && (a.description.None? || NulFree(a.description.value))
    && NulFree(a.location) && NulFree(a.manufacturer)
  }

  /** A row whose id exceeds every stored id is new to the table, and
      appending it keeps the rows before it and a valid table valid. */
  lemma AppendNewRow(t: Table, a: Asset)
    requires forall k :: 0 <= k < |t| ==> t[k].id < a.id
    ensures GetAssetById(t, a.id).None?
    ensures (t + [a])[..|t|] == t && (t + [a])[|t|] == a
    ensures TableValid(t) && AssetValid(a) ==> TableValid(t + [a])
  {
    assert (t + [a])[..|t|] == t;
  }

  /** The reply to a creation request and the table after it. */
  datatype CreateOutcome = CreateOutcome(reply: Reply, table: Table)

  /** The creation steps after the serializer has stripped the text fields:
      the texts must hold no NUL character, the fields must be valid and the
      quantity positive (a 400 otherwise); the asset is owned by the first
      superuser, and with no superuser nothing is saved and the reply is a
      500. */
  function CreateSubmitted(r: Requester, users: seq<User>, t: Table, submitted: Asset): (out: CreateOutcome)
    ensures out.reply == Denied403 <==> !Allowed(Assets(Create), r)
    ensures out.reply == BadRequest400 <==>
              Allowed(Assets(Create), r)
              && (!AssetTextsNulFree(submitted) || !AssetValid(submitted) || !QuantityGreaterThanZero(submitted.quantity))
    ensures out.reply == ServerError500 <==>
              Allowed(Assets(Create), r) && AssetTextsNulFree(submitted) && AssetValid(submitted) && submitted.quantity > 0
              && forall k :: 0 <= k < |users| ==> !users[k].isSuperuser
    ensures out.reply != Created201 ==> out.table == t
    ensures out.reply == Created201 ==>
              |out.table| == |t| + 1 && out.table[..|t|] == t
              && var a := out.table[|t|];
                 && GetAssetById(t, a.id).None?
                 && a.quantity == submitted.quantity > 0
                 && FirstSuperuser(users).Some? && a.currentOwner == FirstSuperuser(users).value.id
                 && (exists k :: 0 <= k < |users| && users[k].id == a.currentOwner && users[k].isSuperuser)
                 && a == Stored(submitted, a.id, a.currentOwner)
    ensures TableValid(t) ==> TableValid(out.table)
  {
    if !Allowed(Assets(Create), r) then CreateOutcome(Denied403, t)
    else if !AssetTextsNulFree(submitted) || AssetErrors(submitted) != [] then CreateOutcome(BadRequest400, t)
    else if !QuantityGreaterThanZero(submitted.quantity) then CreateOutcome(BadRequest400, t)
    else
      match FirstSuperuser(users)
      case None => CreateOutcome(ServerError500, t)
      case Some(su) =>
        var a := Stored(submitted, NextId(t), su.id);
        match SaveAsset(a)
        case Success(saved) =>
          AppendNewRow(t, saved);
          CreateOutcome(Created201, t + [saved])
        case Failure(_) => CreateOutcome(ServerError500, t)
  }

  /** `AssetViewSet.create`: the submitted text fields are stripped of
      surrounding whitespace and the stripped asset goes through the
      creation steps; the quantity is carried over unchanged, and the new
      row is owned by the first superuser. */
  function CreateAsset(r: Requester, users: seq<User>, t: Table, proposed: Asset): (out: CreateOutcome)
    ensures out.reply == BadRequest400 <==>
              Allowed(Assets(Create), r)
              && (!AssetTextsNulFree(Submitted(proposed)) || !AssetValid(Submitted(proposed))
                  || !QuantityGreaterThanZero(proposed.quantity))
    ensures out.reply == Created201 ==>
              |out.table| == |t| + 1 && out.table[..|t|] == t
              && var a := out.table[|t|];
              && a.quantity == proposed.quantity
              && FirstSuperuser(users).Some? && a.currentOwner == FirstSuperuser(users).value.id
              && a.name == Strip(proposed.name) && a.location == Strip(proposed.location)
              && a.manufacturer == Strip(proposed.manufacturer)
    ensures out.reply == Denied403 <==> !Allowed(Assets(Create), r)
    ensures out.reply == ServerError500 <==>
              Allowed(Assets(Create), r) && AssetTextsNulFree(Submitted(proposed)) && AssetValid(Submitted(proposed))
              && proposed.quantity > 0
              && forall k :: 0 <= k < |users| ==> !users[k].isSuperuser
    ensures out.reply != Created201 ==> out.table == t
    ensures TableValid(t) ==> TableValid(out.table)
  {
    CreateSubmitted(r, users, t, Submitted(proposed))
  }

  // ---------------------------------------------------------------------------
  // The asset-code lookup
  // ---------------------------------------------------------------------------

  /** The type has exactly these three fields. */
  predicate Matches(a: AssetType, kind: string, subType: string, group: string) {
    a.kind == kind && a.subType == subType && a.group == group
  }

  /** The position of the first asset type matching all three fields. */
  function FirstMatch(types: seq<AssetType>, kind: string, subType: string, group: string): (r: Option<nat>)
    ensures r.None? <==> forall k :: 0 <= k < |types| ==> !Matches(types[k], kind, subType, group)
    ensures r.Some? ==> r.value < |types| && Matches(types[r.value], kind, subType, group)
    ensures r.Some? ==> forall j :: 0 <= j < r.value ==> !Matches(types[j], kind, subType, group)
  {
    if |types| == 0 then None
    else if Matches(types[0], kind, subType, group) then Some(0)
    else
      match FirstMatch(types[1..], kind, subType, group)
      case None => None
      case Some(k) => Some(k + 1)
  }

  /** The query as the serializer hands it on: the three texts stripped of
      surrounding whitespace. */
  function Query(kind: string, subType: string, group: string): AssetType {
    AssetType(0, Strip(kind), Strip(subType), Strip(group), None)
  }

  /** The serializer refuses the query: a stripped text is out of its
      bounds or holds a NUL character. */
  predicate QueryRefused(q: AssetType) {
    AssetTypeErrors(q) != [] || !NulFree(q.kind) || !NulFree(q.subType) || !NulFree(q.group)
  }

  /** `AssetTypeViewSet.get_code`: the serializer strips the three query
      texts of surrounding whitespace, and the stripped texts must be valid
      type texts free of NUL characters (a 400 otherwise); the code of the
      first type matching them exactly, or a 404. */
  function GetCode(r: Requester, types: seq<AssetType>, kind: string, subType: string, group: string): (res: Result<string, Reply>)
    ensures res == Failure(Denied403) <==> !Allowed(AssetTypeCode, r)
    ensures res == Failure(BadRequest400) <==>
              Allowed(AssetTypeCode, r) && QueryRefused(Query(kind, subType, group))
    ensures res == Failure(NotFound404) <==>
              Allowed(AssetTypeCode, r) && !QueryRefused(Query(kind, subType, group))
              && forall k :: 0 <= k < |types| ==> !Matches(types[k], Strip(kind), Strip(subType), Strip(group))
    ensures res.Success? ==>
              exists k :: 0 <= k < |types| && Matches(types[k], Strip(kind), Strip(subType), Strip(group))
                          && res.value == Code(types[k])
    ensures res.Failure? ==> res.error in {Denied403, BadRequest400, NotFound404}
  {
    var query := Query(kind, subType, group);
    if !Allowed(AssetTypeCode, r) then Failure(Denied403)
    else if QueryRefused(query) then Failure(BadRequest400)
    else
      match FirstMatch(types, query.kind, query.subType, query.group)
      case None => Failure(NotFound404)
      case Some(k) => Success(Code(types[k]))
  }

  /** Every asset type matching the query carries the same three fields, so
      the code found does not depend on which match comes first: it is the
      code read off the stripped query itself. */
  lemma CodeOfQuery(r: Requester, types: seq<AssetType>, kind: string, subType: string, group: string)
    requires GetCode(r, types, kind, subType, group).Success?
    ensures GetCode(r, types, kind, subType, group).value
            == ExtractCode(Strip(kind)) + "-" + ExtractCode(Strip(subType)) + "-" + ExtractCode(Strip(group))
  {
  }

  /** The reply depends on the query texts only through their stripped
      forms: stripping them beforehand changes nothing. */
  lemma StrippedQuery(r: Requester, types: seq<AssetType>, kind: string, subType: string, group: string)
    ensures GetCode(r, types, kind, subType, group) == GetCode(r, types, Strip(kind), Strip(subType), Strip(group))
  {
    StripIdempotent(kind);
    StripIdempotent(subType);
    StripIdempotent(group);
  }

  /** Whitespace around a query text changes nothing: a padded query gets
      the same reply as the bare one, and a query of whitespace alone is a
      400. */
  lemma PaddedQuery(r: Requester, types: seq<AssetType>, kind: string, subType: string, group: string,
                    pre: string, post: string)
    requires Allowed(AssetTypeCode, r)
    requires forall k :: 0 <= k < |pre| ==> IsSpace(pre[k])
    requires forall k :: 0 <= k < |post| ==> IsSpace(post[k])
    requires Trimmed(kind)
    ensures GetCode(r, types, pre + kind + post, subType, group) == GetCode(r, types, kind, subType, group)
    ensures kind == "" ==> GetCode(r, types, pre + kind + post, subType, group) == Failure(BadRequest400)
  {
    StripPadded(pre, kind, post);
    StrippedQuery(r, types, pre + kind + post, subType, group);
    StrippedQuery(r, types, kind, subType, group);
    StripIdempotent(kind);
  }

  /** A query text holding a NUL character is refused with a 400, even when
      a stored type carries exactly that text: stripping cannot remove it. */
  lemma NulInQueryRefused(r: Requester, types: seq<AssetType>, kind: string, subType: string, group: string)
    requires Allowed(AssetTypeCode, r)
    requires '\0' in kind || '\0' in subType || '\0' in group
    ensures GetCode(r, types, kind, subType, group) == Failure(BadRequest400)
  {
    if '\0' in kind {
      StripKeeps(kind, '\0');
    } else if '\0' in subType {
      StripKeeps(subType, '\0');
    } else {
      StripKeeps(group, '\0');
    }
  }


  // ---------------------------------------------------------------------------
  // Assigning requisitioned assets
  // ---------------------------------------------------------------------------

  /** The dictionary `validate_requisitions` answers with on failure. */
  function FailureDict(v: Validation): map<string, seq<AssetId>>
    requires v.Rejected?
  {
    map["validation_errors" := v.notFound, "bad_request_errors" := v.overQuantity]
  }

  /** `dict.get(key, [])`. */
  function Get(d: map<string, seq<AssetId>>, key: string): seq<AssetId> {
    if key in d then d[key] else []
  }

  /** The failure dictionary holds the missing ids under "validation_errors"
      and nothing under the two keys the view formats as quantity and date
      errors. */
  lemma FailureDictKeys(v: Validation)
    requires v.Rejected?
    ensures Get(FailureDict(v), "validation_errors") == v.notFound
    ensures Get(FailureDict(v), "quantity_validation_errors") == []
    ensures Get(FailureDict(v), "date_validation_error") == []
  {
    assert |"quantity_validation_errors"| == 26 && |"date_validation_error"| == 21;
    assert |"validation_errors"| == 17 && |"bad_request_errors"| == 18;
  }

  /** The reply to an assignment request, the ids it would report, and the
      table after it. */
  datatype AssignReply = AssignReply(reply: Reply, reported: seq<AssetId>, table: Table)

  /** `AssetViewSet.assign`. After the permission check an unknown user is a
      404. An accepted batch is assigned and answered with a 200 (a save that
      raises is a 500, with the earlier saves kept). A rejected batch is
      formatted from the keys "validation_errors",
      "quantity_validation_errors" and "date_validation_error": formatting a
      missing asset id indexes into an integer and raises (a 500); the other
      two keys are never set by the validation, so a batch rejected only for
      quantity is a 400 that reports nothing. */
  function AssignView(r: Requester, users: seq<User>, t: Table, userId: UserId, reqs: seq<Requisition>): (out: AssignReply)
    ensures out.reply == Denied403 <==> !Allowed(AssetAssign, r)
    ensures out.reply == NotFound404 <==> Allowed(AssetAssign, r) && GetUserById(users, userId).None?
    ensures out.reply == Ok200 ==> forall k :: 0 <= k < |reqs| ==> Place(t, reqs[k]).Fits?
    ensures out.reply == BadRequest400 <==>
              Allowed(AssetAssign, r) && GetUserById(users, userId).Some?
              && NotFoundIds(t, reqs) == [] && OverQuantityIds(t, reqs) != []
    ensures out.reply == BadRequest400 ==> out.reported == []
    ensures out.reply != Ok200 && out.reply != ServerError500 ==> out.table == t
    ensures out.reply in {Ok200, BadRequest400, Denied403, NotFound404, ServerError500}
  {
    if !Allowed(AssetAssign, r) then AssignReply(Denied403, [], t)
    else
      match GetUserById(users, userId)
      case None => AssignReply(NotFound404, [], t)
      case Some(u) =>
        var v := ValidateRequisitions(t, reqs);
        match v
        case Accepted(pairs) =>
          var o := Assign(t, u.id, pairs);
          if o.failedAt.None? then AssignReply(Ok200, [], o.table) else AssignReply(ServerError500, [], o.table)
        case Rejected(_, _) =>
          var d := FailureDict(v);
          FailureDictKeys(v);
          if |Get(d, "validation_errors")| > 0 then AssignReply(ServerError500, [], t)
          else
            AssignReply(BadRequest400, Get(d, "quantity_validation_errors") + Get(d, "date_validation_error"), t)
  }

  /** The assignment as the view runs it once the requester is allowed and
      the user found: on a valid table, the validation and the saves end
      as the requisitions' placements and remainders say. */
  lemma AssignStepsOnValidTable(t: Table, user: UserId, reqs: seq<Requisition>)
    requires TableValid(t)
    ensures ValidateRequisitions(t, reqs).Accepted? <==> forall k :: 0 <= k < |reqs| ==> Place(t, reqs[k]).Fits?
    ensures ValidateRequisitions(t, reqs).Accepted? ==>
              var o := Assign(t, user, ValidateRequisitions(t, reqs).assignments);
              TableValid(o.table)
              && (o.failedAt.None? <==> forall k :: 0 <= k < |reqs| ==> SavesCleanly(t, reqs[k]))
    ensures (forall k :: 0 <= k < |reqs| ==> SavesCleanly(t, reqs[k])) ==> forall k :: 0 <= k < |reqs| ==> Place(t, reqs[k]).Fits?
  {
    NoErrorsIffAllFit(t, reqs);
    match ValidateRequisitions(t, reqs)
    case Accepted(pairs) =>
      AssignAfterValidation(t, user, reqs, pairs);
    case Rejected(_, _) =>
  }

  /** On a valid table the assignment view keeps the table valid; it
      answers with a 200 exactly when every requisition fits and leaves a
      remainder the quantity column can hold, and with a 500 when a
      requisitioned asset is missing or a save fails part-way. */
  lemma AssignViewOnValidTable(r: Requester, users: seq<User>, t: Table, userId: UserId, reqs: seq<Requisition>)
    requires TableValid(t)
    ensures var out := AssignView(r, users, t, userId, reqs);
            && TableValid(out.table)
            && (out.reply == ServerError500 <==>
                  Allowed(AssetAssign, r) && GetUserById(users, userId).Some?
                  && (NotFoundIds(t, reqs) != []
                      || ((forall k :: 0 <= k < |reqs| ==> Place(t, reqs[k]).Fits?)
                          && exists k :: 0 <= k < |reqs| && !SavesCleanly(t, reqs[k]))))
            && (out.reply == Ok200 <==>
                  Allowed(AssetAssign, r) && GetUserById(users, userId).Some?
                  && forall k :: 0 <= k < |reqs| ==> SavesCleanly(t, reqs[k]))
  {
    if Allowed(AssetAssign, r) && GetUserById(users, userId).Some? {
      AssignStepsOnValidTable(t, GetUserById(users, userId).value.id, reqs);
    }
  }

  /** A user with id 7, the staff flag cleared. */
  const ExampleUser := User(7, "user@example.com", false, false, true)

  /** An admin asking for more cables than are stored gets a 400 that reports
      nothing, and the stock is untouched. */
  lemma OverQuantityReportsNothing(admin: User)
    ensures var out := AssignView(SignedIn(admin, {AssetAdminGroup}), [ExampleUser], [ExampleCable], 7, [Requisition(1, 9)]);
            out.reply == BadRequest400 && out.reported == [] && out.table == [ExampleCable]
  {
    var t := [ExampleCable];
    var reqs := [Requisition(1, 9)];
    var r := SignedIn(admin, {AssetAdminGroup});
    assert Allowed(AssetAssign, r);
    assert GetUserById([ExampleUser], 7) == Some(ExampleUser);
    assert Place(t, reqs[0]) == OverQuantity;
    assert reqs[..0] == [];
    assert NotFoundIds(t, reqs) == [];
    assert OverQuantityIds(t, reqs) == [1];
  }

  /** The requisition of the example: one unit of asset 2, which the
      example table does not hold. */
  lemma MissingExampleRequisition()
    ensures NotFoundIds([ExampleCable], [Requisition(2, 1)]) == [2]
    ensures TableValid([ExampleCable])
  {
    var reqs := [Requisition(2, 1)];
    assert Place([ExampleCable], reqs[0]) == Missing;
    assert reqs[..0] == [];
  }

  /** An admin asking for an asset that is not stored gets a 500. */
  lemma MissingAssetFails(admin: User)
    ensures AssignView(SignedIn(admin, {AssetAdminGroup}), [ExampleUser], [ExampleCable], 7, [Requisition(2, 1)]).reply
            == ServerError500
  {
    var r := SignedIn(admin, {AssetAdminGroup});
    assert Allowed(AssetAssign, r);
    assert GetUserById([ExampleUser], 7) == Some(ExampleUser);
    MissingExampleRequisition();
    AssignViewOnValidTable(r, [ExampleUser], [ExampleCable], 7, [Requisition(2, 1)]);
  }

}
