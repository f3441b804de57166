/**
 * The add-staff form of the admin screens: three required text inputs, an
 * email pattern, and a role picker. A valid submit hands a new staff record
 * to `onAdd`, resets the form and calls `onClose`; an invalid one raises an
 * alert and changes nothing else.
 */
module AddStaffModal {
  import opened Text
  import opened AdminForms

  datatype StaffRole = SecurityGuard | Supervisor

  const ActiveStatus: string := "active"
  const InvalidEmailMessage: string := "Please enter a valid email address"

  datatype NewStaff = NewStaff(
    id: string,
    name: string,
    email: string,
    phone: string,
    role: StaffRole,
    status: string,
    photoUrl: string,
    createdAt: int,
    lastActive: int,
    totalScans: nat,
    approvedScans: nat,
    deniedScans: nat)

  /** What the form does outwardly, in order: an alert, or the two callbacks. */
  datatype FormEvent = Alert(message: string) | OnAdd(staff: NewStaff) | OnClose

  /** A character of the class `[^\s@]`. */
  predicate PartChar(c: char) {
    !IsSpace(c) && c != '@'
  }

  /** A match of `[^\s@]+`. */
  predicate Part(x: string) {
    |x| > 0 && forall i :: 0 <= i < |x| ==> PartChar(x[i])
  }

  /**
   * `/^[^\s@]+@[^\s@]+\.[^\s@]+$/.test(s)`: the whole string splits at an
   * `@` at `a` and a `.` at `d` into three runs of `[^\s@]+`.
   */
  predicate MatchesEmailPattern(s: string) {
    exists a, d :: 0 <= a < d < |s| && s[a] == '@' && s[d] == '.' &&
                   Part(s[..a]) && Part(s[a + 1..d]) && Part(s[d + 1..])
  }

  /**
   * The shape the pattern describes, stated directly: no whitespace, one
   * `@` and no other, something before it, and a `.` after it with text
   * on both sides of the dot.
   */
  predicate EmailShape(s: string) {
    (forall i :: 0 <= i < |s| ==> !IsSpace(s[i])) &&
    exists a :: 0 < a < |s| && s[a] == '@' &&
                (forall i :: 0 <= i < |s| && i != a ==> s[i] != '@') &&
                exists d :: a + 1 < d < |s| - 1 && s[d] == '.'
  }

  /** The pattern accepts exactly the strings of that shape. */
  lemma EmailPatternMeaning(s: string)
    ensures MatchesEmailPattern(s) <==> EmailShape(s)
  {
    if MatchesEmailPattern(s) {
      var a, d :| 0 <= a < d < |s| && s[a] == '@' && s[d] == '.' &&
                  Part(s[..a]) && Part(s[a + 1..d]) && Part(s[d + 1..]);
      PatternSplitHasShape(s, a, d);
    }
    if EmailShape(s) {
      var a :| 0 < a < |s| && s[a] == '@' &&
               (forall i :: 0 <= i < |s| && i != a ==> s[i] != '@') &&
               exists d :: a + 1 < d < |s| - 1 && s[d] == '.';
      var d :| a + 1 < d < |s| - 1 && s[d] == '.';
      ShapeGivesPatternSplit(s, a, d);
    }
  }

  lemma PatternSplitHasShape(s: string, a: nat, d: nat)
    requires 0 <= a < d < |s| && s[a] == '@' && s[d] == '.'
    requires Part(s[..a]) && Part(s[a + 1..d]) && Part(s[d + 1..])
    ensures EmailShape(s)
  {
    forall i | 0 <= i < |s|
      ensures !IsSpace(s[i]) && (i != a ==> s[i] != '@')
    {
      if i < a {
        assert s[..a][i] == s[i];
      } else if a < i < d {
        assert s[a + 1..d][i - a - 1] == s[i];
      } else if d < i {
        assert s[d + 1..][i - d - 1] == s[i];
      }
    }
    assert a + 1 < d < |s| - 1 by {
      assert |s[a + 1..d]| > 0 && |s[d + 1..]| > 0;
    }
  }

  lemma ShapeGivesPatternSplit(s: string, a: nat, d: nat)
    requires forall i :: 0 <= i < |s| ==> !IsSpace(s[i])
    requires 0 < a && a + 1 < d < |s| - 1 && s[a] == '@' && s[d] == '.'
    requires forall i :: 0 <= i < |s| && i != a ==> s[i] != '@'
    ensures MatchesEmailPattern(s)
  {
    assert Part(s[..a]) by {
      forall i | 0 <= i < a
        ensures PartChar(s[..a][i])
      {
        assert s[..a][i] == s[i];
      }
    }
    var mid := s[a + 1..d];
    assert Part(mid) by {
      forall i | 0 <= i < |mid|
        ensures PartChar(mid[i])
      {
        assert mid[i] == s[a + 1 + i];
      }
    }
    var last := s[d + 1..];
    assert Part(last) by {
      forall i | 0 <= i < |last|
        ensures PartChar(last[i])
      {
        assert last[i] == s[d + 1 + i];
      }
    }
  }

  /** A plain address passes; one without a dot after the `@`, with a space, or with two `@`s does not. */
  lemma EmailPatternExamples()
    ensures MatchesEmailPattern("a@b.c")
    ensures !MatchesEmailPattern("a@bc")
    ensures !MatchesEmailPattern("a b@c.d")
    ensures !MatchesEmailPattern("a@@b.c")
  {
    ShapeGivesPatternSplit("a@b.c", 1, 3);
    EmailPatternMeaning("a@bc");
    EmailPatternMeaning("a b@c.d");
    assert IsSpace("a b@c.d"[1]);
    EmailPatternMeaning("a@@b.c");
    assert "a@@b.c"[1] == '@' && "a@@b.c"[2] == '@';
  }

  /** The record a valid submit hands to `onAdd`: active, with no scans yet. */
  function StaffRecord(id: string, name: string, email: string, phone: string, role: StaffRole,
                       avatar: nat, now: int): (r: NewStaff)
    requires avatar < 70
    ensures r.status == ActiveStatus
    ensures r.totalScans == 0 && r.approvedScans == 0 && r.deniedScans == 0
    ensures r.id == id && r.name == name && r.email == email && r.phone == phone && r.role == role
    ensures r.photoUrl == AvatarUrl(avatar) && r.createdAt == now && r.lastActive == now
  {
    NewStaff(id, name, email, phone, role, ActiveStatus, AvatarUrl(avatar), now, now, 0, 0, 0)
  }

  class StaffForm {
    var name: string
    var email: string
    var phone: string
    var role: StaffRole
    /** Alerts and callbacks, oldest first. */
    var events: seq<FormEvent>

    /** The form opens empty, with the guard role picked. */
    constructor ()
      ensures name == "" && email == "" && phone == "" && role == SecurityGuard && events == []
    {
      name := "";
      email := "";
      phone := "";
      role := SecurityGuard;
      events := [];
    }

    /**
     * handleSubmit: a missing field or an email off the pattern raises its
     * alert and leaves the form as it is; otherwise `onAdd` receives the
     * new record, the form resets to its opening state, and `onClose`
     * follows. The record's id, avatar number and clock reading are
     * parameters.
     */
    method HandleSubmit(id: string, avatar: nat, now: int)
      requires avatar < 70
      modifies this
      ensures !AllFilled([old(name), old(email), old(phone)]) ==>
                events == old(events) + [Alert(FillRequiredMessage)] &&
                name == old(name) && email == old(email) && phone == old(phone) && role == old(role)
      ensures AllFilled([old(name), old(email), old(phone)]) && !MatchesEmailPattern(old(email)) ==>
                events == old(events) + [Alert(InvalidEmailMessage)] &&
                name == old(name) && email == old(email) && phone == old(phone) && role == old(role)
      ensures AllFilled([old(name), old(email), old(phone)]) && MatchesEmailPattern(old(email)) ==>
                events == old(events) +
                          [OnAdd(StaffRecord(id, old(name), old(email), old(phone), old(role), avatar, now)), OnClose] &&
                name == "" && email == "" && phone == "" && role == SecurityGuard
    {
      if !AllFilled([name, email, phone]) {
        events := events + [Alert(FillRequiredMessage)];
        return;
      }
      if !MatchesEmailPattern(email) {
        events := events + [Alert(InvalidEmailMessage)];
        return;
      }
      var newStaff := StaffRecord(id, name, email, phone, role, avatar, now);
      events := events + [OnAdd(newStaff)];
      name := "";
      email := "";
      phone := "";
      role := SecurityGuard;
      events := events + [OnClose];
    }
  }

  /** Whatever the form held, `onAdd` only ever receives an active record with zero counts and a well-formed email. */
  lemma AddedStaffWellFormed(name: string, email: string, phone: string, role: StaffRole,
                                                id: string, avatar: nat, now: int)
    requires avatar < 70
    requires AllFilled([name, email, phone]) && MatchesEmailPattern(email)
    ensures var r := StaffRecord(id, name, email, phone, role, avatar, now);
            r.status == ActiveStatus && r.totalScans == 0 && EmailShape(r.email) && r.name != "" && r.phone != ""
  {
    EmailPatternMeaning(email);
    assert [name, email, phone][0] == name && [name, email, phone][2] == phone;
  }
}
