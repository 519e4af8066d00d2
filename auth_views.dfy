/**
 * The authentication views: citizen and authority login, token refresh and
 * logout, as decision trees from the request body to a response. Password
 * checking, token minting, token verification and blacklisting are library
 * calls and enter as function parameters.
 */
module AuthViews {
  import opened Wrappers
  import opened Text
  import opened Queries
  import opened Records
  import ApiClient

  const CredentialsRequired: string := "Email and password are required"
  const InvalidCredentials: string := "Invalid email or password"
  const LoginSuccessful: string := "Login successful"
  const RefreshTokenRequired: string := "Refresh token is required"
  const InvalidRefreshToken: string := "Invalid or expired refresh token"
  const LogoutSuccessful: string := "Logout successful"

  datatype UserType = CitizenUser | AuthorityUser

  function UserTypeName(t: UserType): string {
    match t
    case CitizenUser => "citizen"
    case AuthorityUser => "authority"
  }

  /** The name field is `name` for a citizen and `authority_name` for an authority. */
  function NameField(t: UserType): string {
    match t
    case CitizenUser => "name"
    case AuthorityUser => "authority_name"
  }

  /** What both kinds of account have in common. */
  datatype Account = Account(id: nat, name: string, email: string, password: string)

  function CitizenAccount(c: Citizen): Account {
    Account(c.id, c.name, c.email, c.password)
  }

  function AuthorityAccount(a: Authority): Account {
    Account(a.id, a.authorityName, a.email, a.password)
  }

  /** The custom claims put on the refresh token (and so on its access token). */
  datatype Claims = Claims(userId: nat, userType: string, email: string, nameField: string, name: string)

  /** `data.user` of a successful login. */
  datatype UserRecord = UserRecord(id: nat, nameField: string, name: string, email: string, userType: string)

  datatype Tokens = Tokens(access: string, refresh: string)

  /** `check_password` on a row (not defined on the models themselves). */
  type PasswordCheck = (Account, string) -> bool

  /** A fresh refresh token carrying the claims, and its access token. */
  type Minter = Claims -> Tokens

  datatype LoginResponse =
    | LoginRejected(status: nat, message: string)   // success: False
    | LoggedIn(user: UserRecord, tokens: Tokens)    // 200, success: True, "Login successful"
    | ServerError                                   // an exception the view does not catch

  /** `Model.objects.get(email=email.lower())` over the rows. */
  function MatchingAccounts(rows: seq<Account>, email: string): (r: seq<Account>)
    ensures forall a :: a in r <==> a in rows && a.email == Lower(email)
  {
    Filter(rows, (a: Account) => a.email == Lower(email))
  }

  /** The login decision tree shared by both views. */
  function Login(kind: UserType, rows: seq<Account>, email: Option<string>, password: Option<string>,
                 checkPassword: PasswordCheck, mint: Minter): LoginResponse
  {
    if !Truthy(email) || !Truthy(password) then LoginRejected(400, CredentialsRequired)
    else
      var found := MatchingAccounts(rows, email.value);
      if |found| == 0 then LoginRejected(401, InvalidCredentials)
      else if |found| > 1 then ServerError
      else if !checkPassword(found[0], password.value) then LoginRejected(401, InvalidCredentials)
      else
        var a := found[0];
        LoggedIn(UserRecord(a.id, NameField(kind), a.name, a.email, UserTypeName(kind)),
                 mint(Claims(a.id, UserTypeName(kind), a.email, NameField(kind), a.name)))
  }

  function LoginCitizen(citizens: seq<Citizen>, email: Option<string>, password: Option<string>,
                        checkPassword: PasswordCheck, mint: Minter): LoginResponse
  {
    Login(CitizenUser, seq(|citizens|, i requires 0 <= i < |citizens| => CitizenAccount(citizens[i])),
          email, password, checkPassword, mint)
  }

  function LoginAuthority(authorities: seq<Authority>, email: Option<string>, password: Option<string>,
                          checkPassword: PasswordCheck, mint: Minter): LoginResponse
  {
    Login(AuthorityUser, seq(|authorities|, i requires 0 <= i < |authorities| => AuthorityAccount(authorities[i])),
          email, password, checkPassword, mint)
  }

  /** Email addresses are unique among the rows (declared for citizens only). */
  predicate UniqueEmails(rows: seq<Account>) {
    forall i, j :: 0 <= i < j < |rows| ==> rows[i].email != rows[j].email
  }

  /** A login succeeds exactly for the account whose stored email is the
      lowercased input and whose password checks; the user record then
      carries that account's id, name and email, and the token claims agree
      with the record. A missing field
      is a 400, and with unique emails nothing else can go wrong than the
      one 401. */
  lemma LoginSpec(kind: UserType, rows: seq<Account>, email: Option<string>, password: Option<string>,
                  checkPassword: PasswordCheck, mint: Minter)
    ensures !Truthy(email) || !Truthy(password) ==>
      Login(kind, rows, email, password, checkPassword, mint) == LoginRejected(400, CredentialsRequired)
    ensures Login(kind, rows, email, password, checkPassword, mint).LoggedIn? <==>
      Truthy(email) && Truthy(password) &&
      exists a :: a in rows && a.email == Lower(email.value) && checkPassword(a, password.value) &&
        MatchingAccounts(rows, email.value) == [a]
    ensures Login(kind, rows, email, password, checkPassword, mint).LoggedIn? ==>
      var r := Login(kind, rows, email, password, checkPassword, mint);
      r.user.userType == UserTypeName(kind) && r.user.email == Lower(email.value) &&
      r.tokens == mint(Claims(r.user.id, UserTypeName(kind), r.user.email, NameField(kind), r.user.name)) &&
      exists a :: a in rows && a.email == Lower(email.value) && checkPassword(a, password.value) &&
        r.user == UserRecord(a.id, NameField(kind), a.name, a.email, UserTypeName(kind))
    ensures UniqueEmails(rows) ==> !Login(kind, rows, email, password, checkPassword, mint).ServerError?
  {
    if Truthy(email) && Truthy(password) {
      var found := MatchingAccounts(rows, email.value);
      if |found| == 1 {
        assert found == [found[0]];
        assert found[0] in found;
      }
      if UniqueEmails(rows) {
        AtMostOneMatch(rows, email.value);
      }
    }
  }

  /** With unique emails, at most one row has a given email. */
  lemma {:induction false} AtMostOneMatch(rows: seq<Account>, email: string)
    requires UniqueEmails(rows)
    ensures |MatchingAccounts(rows, email)| <= 1
  {
    if rows != [] {
      var rest := MatchingAccounts(rows[1..], email);
      AtMostOneMatch(rows[1..], email);
      if rows[0].email == Lower(email) {
        forall x | x in rows[1..] ensures x.email != Lower(email) {
          var k :| 0 <= k < |rows[1..]| && rows[1..][k] == x;
          assert rows[k + 1] == x;
        }
        NoMatchingAccounts(rows[1..], email);
      }
    }
  }

  lemma {:induction false} NoMatchingAccounts(rows: seq<Account>, email: string)
    requires forall x :: x in rows ==> x.email != Lower(email)
    ensures MatchingAccounts(rows, email) == []
  {
    if rows != [] {
      NoMatchingAccounts(rows[1..], email);
    }
  }

  /** An unknown email and a wrong password for the account that has the
      email are indistinguishable to the caller. */
  lemma IdenticalCredentialFailures(kind: UserType, rows: seq<Account>, email: string, password: string,
                                    checkPassword: PasswordCheck, mint: Minter)
    requires email != "" && password != ""
    requires forall a :: a in rows && a.email == Lower(email) ==> !checkPassword(a, password)
    requires UniqueEmails(rows)
    ensures Login(kind, rows, Some(email), Some(password), checkPassword, mint) == LoginRejected(401, InvalidCredentials)
  {
    AtMostOneMatch(rows, email);
    var found := MatchingAccounts(rows, email);
    if |found| > 0 {
      assert found[0] in found;
    }
  }

  /** The input's letter case never matters: the lookup lowercases it. */
  lemma LoginIgnoresInputCase(kind: UserType, rows: seq<Account>, email: string, password: Option<string>,
                              checkPassword: PasswordCheck, mint: Minter)
    ensures Login(kind, rows, Some(email), password, checkPassword, mint) ==
            Login(kind, rows, Some(Lower(email)), password, checkPassword, mint)
  {
    LowerIdempotent(email);
    assert |Lower(email)| == |email|;
  }

  /** The stored email is compared as it is stored, so an account whose
      stored email has an upper-case ASCII letter can never log in. */
  lemma MixedCaseStoredEmailNeverMatches(kind: UserType, rows: seq<Account>, a: Account, email: Option<string>,
                                         password: Option<string>, checkPassword: PasswordCheck, mint: Minter)
    requires a in rows && Lower(a.email) != a.email
    ensures var r := Login(kind, rows, email, password, checkPassword, mint);
      !(r.LoggedIn? && r.user.id == a.id && r.user.email == a.email)
  {
    if Truthy(email) && Truthy(password) {
      LowerIdempotent(email.value);
    }
  }

  // ---------------------------------------------------------------------
  // Refresh and logout

  /** The body and status of `refresh_token` and `logout`. */
  datatype TokenResponse = TokenResponse(status: nat, success: bool, message: Option<string>, access: Option<string>)

  /** `RefreshToken(token).access_token`: a new access token, or `None` when
      the token is invalid, expired or blacklisted. */
  type Verifier = string -> Option<string>

  function Refresh(token: Option<string>, verify: Verifier): TokenResponse {
    if !Truthy(token) then TokenResponse(400, false, Some(RefreshTokenRequired), None)
    else if verify(token.value).None? then TokenResponse(401, false, Some(InvalidRefreshToken), None)
    else TokenResponse(200, true, None, verify(token.value))
  }

  /** 400 without a token, 401 for one that does not verify, and otherwise 200
      carrying only a new access token (the refresh token is not rotated). */
  lemma RefreshSpec(token: Option<string>, verify: Verifier)
    ensures Refresh(token, verify).status == 400 <==> !Truthy(token)
    ensures Refresh(token, verify).status == 401 <==> Truthy(token) && verify(token.value).None?
    ensures Refresh(token, verify).success <==> Refresh(token, verify).status == 200
    ensures Refresh(token, verify).success ==> Refresh(token, verify).access == verify(token.value)
    ensures !Refresh(token, verify).success ==> Refresh(token, verify).access == None
  {
  }

  /** How the browser client reads a refresh response. */
  function AsClientReply(r: TokenResponse): ApiClient.RefreshReply {
    ApiClient.RefreshResponse(r.status, r.success, r.access)
  }

  /** End to end: the client's refresh call yields the new access token
      exactly when the backend accepts the refresh token and mints a
      non-empty access token; a missing or invalid token is a failed refresh. */
  lemma RefreshRoundTrip(token: Option<string>, verify: Verifier)
    ensures ApiClient.RefreshOutcome(AsClientReply(Refresh(token, verify))).Ok? <==>
      Truthy(token) && Truthy(verify(token.value))
    ensures ApiClient.RefreshOutcome(AsClientReply(Refresh(token, verify))).Ok? ==>
      ApiClient.RefreshOutcome(AsClientReply(Refresh(token, verify))).value == verify(token.value).value
    ensures !Truthy(token) || verify(token.value).None? ==>
      ApiClient.RefreshOutcome(AsClientReply(Refresh(token, verify))) == Err(ApiClient.RefreshHttpFailed)
  {
    RefreshSpec(token, verify);
  }

  /** `token.blacklist()`: whether blacklisting went through. */
  type Blacklister = string -> bool

  function Logout(token: Option<string>, blacklist: Blacklister): TokenResponse {
    if !Truthy(token) then TokenResponse(400, false, Some(RefreshTokenRequired), None)
    else if blacklist(token.value) then TokenResponse(200, true, Some(LogoutSuccessful), None)
    else TokenResponse(200, true, Some(LogoutSuccessful), None)
  }

  /** Logout answers 400 only without a token; any token, valid or not, gets
      the same 200, whatever blacklisting does. */
  lemma LogoutSpec(token: Option<string>, blacklist: Blacklister, other: Blacklister)
    ensures Logout(token, blacklist).status == 400 <==> !Truthy(token)
    ensures Truthy(token) ==> Logout(token, blacklist) == TokenResponse(200, true, Some(LogoutSuccessful), None)
    ensures Logout(token, blacklist) == Logout(token, other)
  {
  }
}
