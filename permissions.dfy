/** common/permissions.py: the three access rules. Each is a boolean expression over the
    requester, the HTTP method and the object's owner; reading `request.user.seller`
    raises when there is no such profile, so the seller rules can fail instead of answering. */
module Permissions {
  import opened Wrappers
  import opened Accounts

  /** `request.user`: Django's anonymous user or an authenticated account. */
  datatype Requester = Anonymous | Member(user: User)

  /** The methods DRF treats as read-only (SAFE_METHODS). */
  const SafeMethods: set<string> := {"GET", "HEAD", "OPTIONS"}

  /** What evaluating `request.user.seller` raises. */
  datatype PermissionError =
    | AttributeError             // the anonymous user has no `seller` attribute
    | RelatedObjectDoesNotExist  // an account with no Seller row

  /** `request.user.is_authenticated`. */
  predicate IsAuthenticated(r: Requester)
  {
    r.Member?
  }

  /** `request.user.is_staff`; the anonymous user is never staff. */
  predicate IsStaffUser(r: Requester)
  {
    r.Member? && r.user.isStaff
  }

  /** `request.user.seller`. */
  function SellerOf(r: Requester): Result<SellerProfile, PermissionError>
  {
    match r
    case Anonymous => Err(AttributeError)
    case Member(u) => if u.seller.Some? then Ok(u.seller.value) else Err(RelatedObjectDoesNotExist)
  }

  /** `IsOwner.has_permission`. */
  predicate OwnerHasPermission(r: Requester)
  {
    IsAuthenticated(r)
  }

  /** `IsOwner.has_object_permission`; `owner` is the object's `user` link. */
  predicate OwnerHasObjectPermission(r: Requester, owner: Option<Id>)
  {
    (r.Member? && owner == Some(r.user.id)) || IsStaffUser(r)
  }

  /** `IsSeller.has_permission`: `(authenticated and SELLER and seller.is_approved) or is_staff`,
      evaluated left to right, so a SELLER account with no Seller row raises. */
  function SellerHasPermission(r: Requester): Result<bool, PermissionError>
  {
    match r
    case Anonymous => Ok(false)
    case Member(u) =>
      if u.accountType == Seller then
        match SellerOf(r)
        case Err(e) => Err(e)
        case Ok(s) => Ok(s.isApproved || u.isStaff)
      else Ok(u.isStaff)
  }

  /** `IsSeller.has_object_permission` as written: `obj.seller == request.user.seller or is_staff`.
      The profile is read before the staff test; `objSeller` is the object's `seller` link. */
  function SellerHasObjectPermission(r: Requester, objSeller: Option<Id>): Result<bool, PermissionError>
  {
    match SellerOf(r)
    case Err(e) => Err(e)
    case Ok(s) => Ok(objSeller == Some(s.id) || IsStaffUser(r))
  }

  /** The object rule of IsSeller with the staff test first, so that the `or is_staff` clause
      admits every staff account as it evidently means to. */
  function SellerHasObjectPermissionStaffFirst(r: Requester, objSeller: Option<Id>): (granted: Result<bool, PermissionError>)
    ensures IsStaffUser(r) ==> granted == Ok(true)
    ensures SellerHasObjectPermission(r, objSeller).Ok? ==> granted == SellerHasObjectPermission(r, objSeller)
  {
    if IsStaffUser(r) then Ok(true) else SellerHasObjectPermission(r, objSeller)
  }

  /** `IsStaff.has_permission` and `IsStaff.has_object_permission` (the two bodies are the same). */
  predicate StaffHasPermission(r: Requester, httpMethod: string)
  {
    httpMethod in SafeMethods || IsStaffUser(r)
  }

  /** A staff account passes the object check of IsOwner and IsStaff whatever the object and method,
      and that of IsSeller whenever it has a Seller row. */
  lemma StaffPassesObjectChecks(r: Requester, owner: Option<Id>, objSeller: Option<Id>, httpMethod: string)
    requires IsStaffUser(r)
    ensures OwnerHasObjectPermission(r, owner)
    ensures StaffHasPermission(r, httpMethod)
    ensures r.user.seller.Some? ==> SellerHasObjectPermission(r, objSeller) == Ok(true)
  {
  }

  /** As written, a staff account without a Seller row is let through by IsSeller's view check
      (when its account type is BUYER) and then makes the object check raise instead of granting. */
  lemma StaffWithoutSellerRowRaises(id: Id, objSeller: Option<Id>)
    ensures var r := Member(User(id, true, Buyer, None));
      && SellerHasPermission(r) == Ok(true)
      && SellerHasObjectPermission(r, objSeller) == Err(RelatedObjectDoesNotExist)
      && SellerHasObjectPermissionStaffFirst(r, objSeller) == Ok(true)
  {
  }

  /** IsStaff lets anyone, the anonymous user included, use GET, HEAD and OPTIONS, and every
      other method only to staff. */
  lemma StaffRuleSplitsOnSafeMethods(r: Requester, httpMethod: string)
    ensures httpMethod in SafeMethods ==> StaffHasPermission(r, httpMethod)
    ensures httpMethod !in SafeMethods ==> (StaffHasPermission(r, httpMethod) <==> r.Member? && r.user.isStaff)
  {
  }

  /** IsSeller grants the view to a non-staff account only if it is a SELLER with an approved Seller row,
      and it grants every approved SELLER. */
  lemma SellerViewNeedsApprovedSeller(r: Requester)
    ensures SellerHasPermission(r) == Ok(true) && !IsStaffUser(r) ==>
      r.Member? && r.user.accountType == Seller && r.user.seller.Some? && r.user.seller.value.isApproved
    ensures r.Member? && r.user.accountType == Seller && r.user.seller.Some? && r.user.seller.value.isApproved ==>
      SellerHasPermission(r) == Ok(true)
    ensures r.Member? && r.user.accountType == Seller && r.user.seller.None? ==>
      SellerHasPermission(r) == Err(RelatedObjectDoesNotExist)
  {
  }

  /** The anonymous user passes neither IsOwner nor IsSeller at view level, and is nobody's owner. */
  lemma AnonymousIsRefused(owner: Option<Id>, objSeller: Option<Id>)
    ensures !OwnerHasPermission(Anonymous) && !OwnerHasObjectPermission(Anonymous, owner)
    ensures SellerHasPermission(Anonymous) == Ok(false)
    ensures SellerHasObjectPermission(Anonymous, objSeller) == Err(AttributeError)
  {
  }
}
