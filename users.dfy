/**
 * The pure part of the user handlers: the case folding applied to e-mail
 * addresses, and the profile of the administrator created at start-up.
 */
module Users {
  import opened Records

  const DefaultAdminEmail := "admin@example.com"

  /**
   * The start-up administrator's profile. It carries no student id; the
   * model's `studentId` field holds the empty string for it.
   */
  function DefaultAdmin(id: string, now: int): (u: User)
    ensures u.id == id && u.email == DefaultAdminEmail && u.role == Admin
  {
    User(id, DefaultAdminEmail, "Admin", "User", "", Admin, now)
  }

  /** `toLowerCase` on one character, for the ASCII letters. */
  function LowerChar(c: char): (d: char)
    ensures 'A' <= c <= 'Z' ==> d as int == c as int + 32
    ensures !('A' <= c <= 'Z') ==> d == c
    ensures !('A' <= d <= 'Z')
  {
    if 'A' <= c <= 'Z' then (c as int + 32) as char else c
  }

  /** `String.prototype.toLowerCase`, for the ASCII letters. */
  function Lower(s: string): (r: string)
    ensures |r| == |s|
    ensures forall i :: 0 <= i < |s| ==> r[i] == LowerChar(s[i])
  {
    seq(|s|, i requires 0 <= i < |s| => LowerChar(s[i]))
  }

  /** Folding twice is folding once, so a stored (folded) address is its own key. */
  lemma LowerIdempotent(s: string)
    ensures Lower(Lower(s)) == Lower(s)
  {
    assert forall i :: 0 <= i < |s| ==> LowerChar(LowerChar(s[i])) == LowerChar(s[i]);
  }
}
