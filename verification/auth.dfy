/** The client-side authentication provider: the logged-in user, the
    accounts registered in this browser (with their passwords) and the
    loading flag. Registered accounts are searched before the seed users,
    and seed users accept any password. */
module Auth {
  import opened Wrappers
  import opened Types
  import opened Seqs

  const InvalidCredentials := "Invalid email or password"

  /** `User & { password: string }`. */
  datatype Account = Account(user: User, password: string)

  datatype AuthState = AuthState(user: Option<User>, registered: seq<Account>, loading: bool)

  function AccountEmail(a: Account): string { a.user.email }
  function UserEmail(u: User): string { u.email }

  /** `login(email, password)` against the registered accounts and then the
      seed users `mockUsers`; a failure is the rejected promise. */
  function Login(st: AuthState, mockUsers: seq<User>, email: string, password: string): (r: Result<AuthState, string>)
    ensures r.Success? ==> r.value == st.(user := r.value.user) && r.value.user.Some?
    ensures r.Failure? ==> r.error == InvalidCredentials
    ensures FindIndex(st.registered, AccountEmail, email).Some? ==>
      var k := FindIndex(st.registered, AccountEmail, email).value;
      && (st.registered[k].password == password ==> r == Success(st.(user := Some(st.registered[k].user))))
      && (st.registered[k].password != password ==> r.Failure?)
    ensures FindIndex(st.registered, AccountEmail, email).None? ==>
      && (FindIndex(mockUsers, UserEmail, email).Some? ==>
            r == Success(st.(user := Some(mockUsers[FindIndex(mockUsers, UserEmail, email).value]))))
      && (FindIndex(mockUsers, UserEmail, email).None? ==> r.Failure?)
  {
    match Find(st.registered, AccountEmail, email)
    case Some(account) =>
      if account.password == password then Success(st.(user := Some(account.user)))
      else Failure(InvalidCredentials)
    case None =>
      match Find(mockUsers, UserEmail, email)
      case Some(mock) => Success(st.(user := Some(mock)))
      case None => Failure(InvalidCredentials)
  }

  /** `register(userData)`: the account is appended with the generated id
      `newId` (whatever id it carried is overwritten) and becomes the
      logged-in user, without its password. */
  function Register(st: AuthState, data: Account, newId: string): (r: AuthState)
    ensures |r.registered| == |st.registered| + 1
    ensures r.registered[..|st.registered|] == st.registered
    ensures r.registered[|st.registered|] == Account(data.user.(id := newId), data.password)
    ensures r.user == Some(data.user.(id := newId))
    ensures r.loading == st.loading
  {
    var account := Account(data.user.(id := newId), data.password);
    AuthState(Some(account.user), st.registered + [account], st.loading)
  }

  /** `logout()`: only the current user is cleared. */
  function Logout(st: AuthState): (r: AuthState)
    ensures r.user.None?
    ensures r.registered == st.registered && r.loading == st.loading
  {
    st.(user := None)
  }

  /** The redirect effect: back to "/" when settled, logged out, and on a
      page other than the login and registration pages. */
  function ShouldRedirect(st: AuthState, pathname: string): (r: bool)
    ensures r ==> !st.loading && st.user.None?
    ensures pathname == "/" || pathname == "/register" ==> !r
    ensures !st.loading && st.user.None? && pathname != "/" && pathname != "/register" ==> r
  {
    !st.loading && st.user.None? && pathname != "/" && pathname != "/register"
  }

  /** Registering and then logging in with the same credentials yields the
      registered user, when no earlier account has that email. */
  lemma RegisterThenLogin(st: AuthState, mockUsers: seq<User>, data: Account, newId: string)
    requires forall k :: 0 <= k < |st.registered| ==> st.registered[k].user.email != data.user.email
    ensures Login(Register(st, data, newId), mockUsers, data.user.email, data.password)
         == Success(Register(st, data, newId))
  {
    var r := Register(st, data, newId);
    var k := FindIndex(r.registered, AccountEmail, data.user.email);
    assert AccountEmail(r.registered[|st.registered|]) == data.user.email;
    assert k == Some(|st.registered|) by {
      forall j | 0 <= j < |st.registered| ensures AccountEmail(r.registered[j]) != data.user.email {
        assert r.registered[j] == st.registered[j];
      }
    }
  }

  /** An earlier account shadows a later one with the same email: the later
      password is refused unless it is also the earlier one's. */
  lemma DuplicateRegistrationShadowed(st: AuthState, mockUsers: seq<User>, data: Account, newId: string)
    requires FindIndex(st.registered, AccountEmail, data.user.email).Some?
    requires st.registered[FindIndex(st.registered, AccountEmail, data.user.email).value].password != data.password
    ensures Login(Register(st, data, newId), mockUsers, data.user.email, data.password) == Failure(InvalidCredentials)
  {
    var r := Register(st, data, newId);
    var k := FindIndex(st.registered, AccountEmail, data.user.email).value;
    assert r.registered[k] == st.registered[k];
    assert FindIndex(r.registered, AccountEmail, data.user.email) == Some(k) by {
      forall j | 0 <= j < k ensures AccountEmail(r.registered[j]) != data.user.email {
        assert r.registered[j] == st.registered[j];
      }
    }
  }

  /** A registered account with a seed user's email hides that seed user:
      a wrong password fails although seed users accept any password. */
  lemma RegisteredShadowsMock(st: AuthState, mockUsers: seq<User>, email: string, password: string)
    requires FindIndex(st.registered, AccountEmail, email).Some?
    requires st.registered[FindIndex(st.registered, AccountEmail, email).value].password != password
    requires exists j :: 0 <= j < |mockUsers| && mockUsers[j].email == email
    ensures Login(st, mockUsers, email, password) == Failure(InvalidCredentials)
  {
  }

  /** Once settled, on any page but "/" and "/register": logging out
      triggers the redirect, and a successful login or registration stops it. */
  lemma RedirectFollowsSession(st: AuthState, mockUsers: seq<User>, email: string, password: string,
                               data: Account, newId: string, pathname: string)
    requires !st.loading && pathname != "/" && pathname != "/register"
    ensures ShouldRedirect(Logout(st), pathname)
    ensures Login(st, mockUsers, email, password).Success? ==>
              !ShouldRedirect(Login(st, mockUsers, email, password).value, pathname)
    ensures !ShouldRedirect(Register(st, data, newId), pathname)
    ensures ShouldRedirect(st, "/") == false && ShouldRedirect(st, "/register") == false
  {
  }
}
