/** accounts/serializers.py: the claims `CustomTokenObtainPairSerializer.get_token` adds
    to a user's access token, and the user attributes those claims (and the access
    rules in common/permissions.py) read. */
module Accounts {
  import opened Wrappers

  /** ACCOUNT_TYPE_CHOICES. */
  datatype AccountType = Seller | Buyer
  {
    /** The value stored in `account_type`. */
    function Code(): string
    {
      match this
      case Seller => "SELLER"
      case Buyer => "BUYER"
    }
  }

  /** The Seller row linked one-to-one to a user. */
  datatype SellerProfile = SellerProfile(id: Id, isApproved: bool)

  /** An authenticated user as the rules see it; `seller` is None when no Seller row points at the user. */
  datatype User = User(id: Id, isStaff: bool, accountType: AccountType, seller: Option<SellerProfile>)

  /** A token's claims by name. */
  type Payload = map<string, string>

  /** The claims after `get_token`: staff are put in group "admin"; everyone else in group "user"
      with their account type as role. Every other claim of the parent's token is kept as it was. */
  function WithUserClaims(base: Payload, user: User): (claims: Payload)
    ensures "group" in claims && claims["group"] == (if user.isStaff then "admin" else "user")
    ensures !user.isStaff ==> "role" in claims && claims["role"] == user.accountType.Code()
    ensures user.isStaff ==> ("role" in claims <==> "role" in base)
    ensures user.isStaff && "role" in base ==> claims["role"] == base["role"]
    ensures claims.Keys == base.Keys + {"group"} + (if user.isStaff then {} else {"role"})
    ensures forall k :: k in base && k != "group" && k != "role" ==> claims[k] == base[k]
  {
    if user.isStaff then base["group" := "admin"]
    else base["group" := "user"]["role" := user.accountType.Code()]
  }

  /** An issued token, whose payload is written claim by claim. */
  class Token {
    var payload: Payload

    /** The token the parent serializer issues, carrying `claims`. */
    constructor (claims: Payload)
      ensures payload == claims
    {
      payload := claims;
    }

    /** `token[claim] = value`. */
    method Set(claim: string, value: string)
      modifies this
      ensures payload == old(payload)[claim := value]
    {
      payload := payload[claim := value];
    }
  }

  /** `CustomTokenObtainPairSerializer.get_token`: take the parent's token (whose claims are `base`)
      and write `group`, and for non-staff `role`, into it. */
  method GetToken(user: User, base: Payload) returns (token: Token)
    ensures fresh(token)
    ensures token.payload == WithUserClaims(base, user)
  {
    token := new Token(base);
    if user.isStaff {
      token.Set("group", "admin");
    } else {
      token.Set("group", "user");
      token.Set("role", user.accountType.Code());
    }
  }
}
