/**
 * Mock sign-in of the main app: the user is looked up by indexing the
 * fixture record with the email, around a loading flag; sign-out clears the
 * user; the role and the authenticated flag are derived from the user.
 *
 * The fixture is a plain JavaScript object, so indexing it also reaches
 * the members every object inherits from `Object.prototype`. `IndexAsWritten`
 * models that lookup and `PrototypeKeyPassesGuard` shows what it lets
 * through; the provider uses the own-key lookup `LookupUser`.
 */
module AppAuth {
  import opened Wrappers

  datatype UserRole = Admin | Security | ParentStudent

  datatype User = User(id: string, email: string, name: string, role: UserRole, institutionId: string)

  /** The fixture: users keyed by email. */
  const MockUsers: map<string, User> := map[
    "admin@school.com" := User("admin-123", "admin@school.com", "Principal Skinner", Admin, "inst-001"),
    "security@school.com" := User("sec-123", "security@school.com", "Officer Barbrady", Security, "inst-001"),
    "parent@school.com" := User("parent-123", "parent@school.com", "Homer Simpson", ParentStudent, "inst-001")
  ]

  const InvalidCredentials: string := "Invalid credentials (Try admin@school.com)"

  /** The property names every plain object inherits from `Object.prototype`. */
  const ObjectPrototypeMembers: set<string> := {
    "constructor", "hasOwnProperty", "isPrototypeOf", "propertyIsEnumerable",
    "toLocaleString", "toString", "valueOf", "__proto__",
    "__defineGetter__", "__defineSetter__", "__lookupGetter__", "__lookupSetter__"
  }

  /** What `MOCK_USERS[key]` evaluates to: an own user, an inherited member (a function or the prototype object), or undefined. */
  datatype JsValue = UserValue(user: User) | Inherited(member: string) | Undefined

  /** JavaScript truthiness of such a value: users, functions and objects are truthy, undefined is not. */
  predicate Truthy(v: JsValue) {
    !v.Undefined?
  }

  /** `MOCK_USERS[email]` with JavaScript's property lookup: own keys first, then the prototype chain. */
  function IndexAsWritten(email: string): (v: JsValue)
    ensures v.UserValue? <==> email in MockUsers
    ensures v.UserValue? ==> v.user == MockUsers[email]
    ensures v.Inherited? <==> email !in MockUsers && email in ObjectPrototypeMembers
  {
    if email in MockUsers then UserValue(MockUsers[email])
    else if email in ObjectPrototypeMembers then Inherited(email)
    else Undefined
  }

  /**
   * The sign-in guard as written admits "constructor": the lookup is truthy,
   * yet no user has that key, and what would be stored as the user is the
   * inherited `Object` function.
   */
  lemma PrototypeKeyPassesGuard()
    ensures Truthy(IndexAsWritten("constructor"))
    ensures "constructor" !in MockUsers
    ensures !IndexAsWritten("constructor").UserValue?
  {
    assert "constructor" != "admin@school.com";
    assert "constructor" != "security@school.com";
    assert "constructor" != "parent@school.com";
  }

  /** The intended lookup: own keys of the fixture only. */
  function LookupUser(email: string): (r: Option<User>)
    ensures r.Some? <==> email in MockUsers
    ensures r.Some? ==> r.value == MockUsers[email]
  {
    if email in MockUsers then Some(MockUsers[email]) else None
  }

  /** Every fixture user is stored under its own email. */
  lemma MockUsersKeyedByEmail()
    ensures forall k :: k in MockUsers ==> MockUsers[k].email == k
  {
  }

  /**
   * With the own-key lookup, a successful lookup returns a user whose
   * email is exactly the one given, and no inherited name signs in.
   */
  lemma LookupUserMatchesEmail(email: string)
    ensures LookupUser(email).Some? ==> LookupUser(email).value.email == email
    ensures email in ObjectPrototypeMembers ==> LookupUser(email).None?
  {
    MockUsersKeyedByEmail();
    if email in ObjectPrototypeMembers {
      assert email !in MockUsers by {
        forall k | k in MockUsers
          ensures k != email
        {
          assert k[0] == 'a' || k[0] == 's' || k[0] == 'p';
          assert |k| > 15;
        }
      }
    }
  }

  /** Email matching is exact: an upper-case spelling of a fixture address is not a key. */
  lemma ExactEmailMatch()
    ensures LookupUser("ADMIN@school.com").None?
    ensures LookupUser("admin@school.com") == Some(MockUsers["admin@school.com"])
  {
    assert "ADMIN@school.com"[0] == 'A';
    assert "ADMIN@school.com" != "admin@school.com";
  }

  class AuthProvider {
    var user: Option<User>
    var isLoading: bool

    /** The provider mounts loading, until the session check below ends. */
    constructor ()
      ensures user == None && isLoading
    {
      user := None;
      isLoading := true;
    }

    /** The mount effect's timer firing: loading ends, the user is untouched. */
    method SessionCheckDone()
      modifies this
      ensures !isLoading && user == old(user)
    {
      isLoading := false;
    }

    /** `user?.role || null`. */
    function Role(): (r: Option<UserRole>)
      reads this
      ensures r.Some? <==> user.Some?
      ensures user.Some? ==> r.value == user.value.role
    {
      if user.Some? then Some(user.value.role) else None
    }

    /** `!!user`: a user is signed in, which is exactly when there is a role. */
    predicate IsAuthenticated()
      reads this
      ensures IsAuthenticated() <==> Role().Some?
    {
      user.Some?
    }

    /**
     * signIn: a fixture key makes its user the signed-in user; any other
     * email throws the invalid-credentials error and keeps the user. The
     * password takes no part. Loading is off again on both paths.
     */
    method SignIn(email: string, password: string) returns (error: Option<string>)
      modifies this
      ensures error.None? <==> email in MockUsers
      ensures error.None? ==> user == Some(MockUsers[email]) && IsAuthenticated() &&
                              Role() == Some(MockUsers[email].role)
      ensures error.Some? ==> error.value == InvalidCredentials && user == old(user)
      ensures !isLoading
    {
      isLoading := true;
      var found := LookupUser(email);
      if found.Some? {
        user := found;
        error := None;
      } else {
        error := Some(InvalidCredentials);
      }
      isLoading := false;
    }

    /** signOut: the user is cleared and loading is off again. */
    method SignOut()
      modifies this
      ensures user == None && !IsAuthenticated() && Role() == None
      ensures !isLoading
    {
      isLoading := true;
      user := None;
      isLoading := false;
    }
  }
}
