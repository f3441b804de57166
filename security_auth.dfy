/**
 * Mock sign-in of the security app: the staff member whose email equals
 * the given one ignoring case becomes the signed-in user, around a loading
 * flag; sign-out clears the user.
 */
module SecurityAuth {
  import opened Wrappers
  import opened Text

  datatype StaffRole = SecurityGuard | Supervisor

  datatype StaffMember = StaffMember(id: string, name: string, email: string, role: StaffRole, password: string)

  /** The staff fixture sign-in searches. */
  const MockStaff: seq<StaffMember> := [
    StaffMember("1", "John Guard", "guard@school.com", SecurityGuard, "password"),
    StaffMember("2", "Sarah Supervisor", "admin@school.com", Supervisor, "password")
  ]

  /** Some member of `staff` has `email` as address, ignoring case. */
  predicate HasStaffEmail(staff: seq<StaffMember>, email: string) {
    exists i :: 0 <= i < |staff| && EqualsIgnoreCase(staff[i].email, email)
  }

  /** The member `find` returns: the first whose address equals `email` ignoring case. */
  function FirstStaffMatch(staff: seq<StaffMember>, email: string): Option<StaffMember>
    decreases |staff|
  {
    if staff == [] then None
    else if EqualsIgnoreCase(staff[0].email, email) then Some(staff[0])
    else FirstStaffMatch(staff[1..], email)
  }

  /**
   * The match found is present exactly when some address matches, and then
   * it is the member at the first such position.
   */
  lemma {:induction false} FirstStaffMatchMeaning(staff: seq<StaffMember>, email: string)
    ensures FirstStaffMatch(staff, email).Some? <==> HasStaffEmail(staff, email)
    ensures FirstStaffMatch(staff, email).Some? ==>
              exists i :: 0 <= i < |staff| && staff[i] == FirstStaffMatch(staff, email).value &&
                          EqualsIgnoreCase(staff[i].email, email) &&
                          forall j :: 0 <= j < i ==> !EqualsIgnoreCase(staff[j].email, email)
    decreases |staff|
  {
    if staff != [] && !EqualsIgnoreCase(staff[0].email, email) {
      var rest := staff[1..];
      FirstStaffMatchMeaning(rest, email);
      if HasStaffEmail(staff, email) {
        var i :| 0 <= i < |staff| && EqualsIgnoreCase(staff[i].email, email);
        assert i != 0;
        assert rest[i - 1] == staff[i];
      }
      if FirstStaffMatch(rest, email).Some? {
        var i :| 0 <= i < |rest| && rest[i] == FirstStaffMatch(rest, email).value &&
                 EqualsIgnoreCase(rest[i].email, email) &&
                 forall j :: 0 <= j < i ==> !EqualsIgnoreCase(rest[j].email, email);
        assert staff[i + 1] == rest[i];
        forall j | 0 <= j < i + 1
          ensures !EqualsIgnoreCase(staff[j].email, email)
        {
          if j > 0 {
            assert staff[j] == rest[j - 1];
          }
        }
      }
    }
  }

  /** Two addresses that agree ignoring case find the same member. */
  lemma {:induction false} FirstStaffMatchIgnoresCase(staff: seq<StaffMember>, e1: string, e2: string)
    requires EqualsIgnoreCase(e1, e2)
    ensures FirstStaffMatch(staff, e1) == FirstStaffMatch(staff, e2)
    decreases |staff|
  {
    if staff != [] {
      FirstStaffMatchIgnoresCase(staff[1..], e1, e2);
    }
  }

  /** `staff.find(s => s.email.toLowerCase() === email.toLowerCase())`. */
  method FindStaff(staff: seq<StaffMember>, email: string) returns (r: Option<StaffMember>)
    ensures r == FirstStaffMatch(staff, email)
  {
    var i := 0;
    while i < |staff|
      invariant 0 <= i <= |staff|
      invariant FirstStaffMatch(staff[i..], email) == FirstStaffMatch(staff, email)
    {
      assert staff[i..][1..] == staff[i + 1..];
      if EqualsIgnoreCase(staff[i].email, email) {
        return Some(staff[i]);
      }
      i := i + 1;
    }
    return None;
  }

  /** The fixture's guard signs in with an upper-case spelling of the address. */
  lemma GuardSignsInIgnoringCase()
    ensures FirstStaffMatch(MockStaff, "GUARD@School.com") == Some(MockStaff[0])
  {
    assert ToLower("GUARD@School.com") == "guard@school.com";
    assert ToLower(MockStaff[0].email) == "guard@school.com";
  }

  /** An address of no staff member finds nobody. */
  lemma UnknownAddressFindsNobody()
    ensures FirstStaffMatch(MockStaff, "parent@school.com") == None
  {
    var e := "parent@school.com";
    assert ToLower(e) == e;
    assert ToLower(MockStaff[0].email)[0] == 'g' != ToLower(e)[0];
    assert ToLower(MockStaff[1].email)[0] == 'a' != ToLower(e)[0];
    assert MockStaff[1..][1..] == [];
  }

  class AuthProvider {
    var user: Option<StaffMember>
    var isLoading: bool

    constructor ()
      ensures user == None && !isLoading
    {
      user := None;
      isLoading := false;
    }

    /**
     * signIn: succeeds exactly when some staff address equals `email`
     * ignoring case, and the first such member becomes the user; on failure
     * the user is kept. Loading is off again on both paths.
     */
    method SignIn(email: string) returns (ok: bool)
      modifies this
      ensures ok <==> HasStaffEmail(MockStaff, email)
      ensures ok ==> user == FirstStaffMatch(MockStaff, email)
      ensures !ok ==> user == old(user)
      ensures !isLoading
    {
      isLoading := true;
      var staff := FindStaff(MockStaff, email);
      FirstStaffMatchMeaning(MockStaff, email);
      if staff.Some? {
        user := staff;
        isLoading := false;
        return true;
      }
      isLoading := false;
      return false;
    }

    /** signOut: the user is cleared; the loading flag is not touched. */
    method SignOut()
      modifies this
      ensures user == None && isLoading == old(isLoading)
    {
      user := None;
    }
  }
}
