/** Users as the client pages receive them from `GET /users`. */
module ClientUsers {
  import opened Common

  /** The serialised user: `toJSON` of the stored user, minus the fields the pages never read. */
  datatype Member = Member(id: string, name: string, email: string, department: string, designation: string, role: string)

  /** `users.map((u) => u.id)`. */
  function Ids(ms: seq<Member>): (r: seq<string>)
    ensures |r| == |ms| && forall i :: 0 <= i < |ms| ==> r[i] == ms[i].id
  {
    seq(|ms|, i requires 0 <= i < |ms| => ms[i].id)
  }

  /** `users.find((user) => user.id === id)`. */
  function FindMember(ms: seq<Member>, id: string): Option<Member> {
    Find((m: Member) => m.id == id, ms)
  }

  /**
   * The lookup finds a member exactly when one has the id, and then the
   * first one in list order.
   */
  lemma FindMemberSpec(ms: seq<Member>, id: string)
    ensures FindMember(ms, id).Some? <==> id in Ids(ms)
    ensures FindMember(ms, id).Some? ==>
      exists i :: 0 <= i < |ms| && ms[i] == FindMember(ms, id).value && ms[i].id == id
        && forall j :: 0 <= j < i ==> ms[j].id != id
  {
    var p := (m: Member) => m.id == id;
    FindFirst(p, ms);
    if id in Ids(ms) {
      var k :| 0 <= k < |ms| && Ids(ms)[k] == id;
      assert p(ms[k]);
    }
  }
}
