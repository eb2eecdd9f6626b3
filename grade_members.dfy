/** The JDBC query both grade-coupon steps page through:
    `select member_no from members where member_grade_no = :memberGradeNo`,
    sorted by member_no ascending. */
module GradeMembers {
  import opened Wrappers
  import opened SqlOrder
  import opened Members
  import opened GivenCoupons

  /** MemberDto: the one selected column. */
  datatype MemberDto = MemberDto(memberNo: int)

  function IdsWithGrade(members: seq<Member>, gradeNo: int): (ids: seq<int>)
    reads members
    ensures forall n :: n in ids <==> HasMemberWithGrade(members, gradeNo, n)
    decreases |members|
  {
    if members == [] then []
    else
      var rest := IdsWithGrade(members[1..], gradeNo);
      assert forall n :: HasMemberWithGrade(members, gradeNo, n) <==>
        (members[0].id == n && members[0].memberGrade.id == gradeNo) || HasMemberWithGrade(members[1..], gradeNo, n) by {
        forall n ensures HasMemberWithGrade(members, gradeNo, n) ==>
          (members[0].id == n && members[0].memberGrade.id == gradeNo) || HasMemberWithGrade(members[1..], gradeNo, n)
        {
          if HasMemberWithGrade(members, gradeNo, n) {
            var i :| 0 <= i < |members| && members[i].id == n && members[i].memberGrade.id == gradeNo;
            if i > 0 {
              assert members[1..][i - 1] == members[i];
            }
          }
        }
        forall n | HasMemberWithGrade(members[1..], gradeNo, n)
          ensures HasMemberWithGrade(members, gradeNo, n)
        {
          var i :| 0 <= i < |members[1..]| && members[1..][i].id == n && members[1..][i].memberGrade.id == gradeNo;
          assert members[i + 1] == members[1..][i];
        }
      }
      (if members[0].memberGrade.id == gradeNo then [members[0].id] else []) + rest
  }

  /** The reader's rows: a null grade parameter matches no row (`= NULL` is
      never true); otherwise every member number holding the grade, once, in
      ascending order. */
  function SelectByGrade(members: seq<Member>, gradeNo: Option<int>): (rows: seq<MemberDto>)
    reads members
    ensures gradeNo.None? ==> rows == []
    ensures forall i, j :: 0 <= i < j < |rows| ==> rows[i].memberNo < rows[j].memberNo
    ensures forall i :: 0 <= i < |rows| ==> gradeNo.Some? && HasMemberWithGrade(members, gradeNo.value, rows[i].memberNo)
    ensures forall n :: gradeNo.Some? && HasMemberWithGrade(members, gradeNo.value, n) ==>
              exists i :: 0 <= i < |rows| && rows[i].memberNo == n
  {
    if gradeNo.None? then []
    else
      var ids := SortedDistinct(IdsWithGrade(members, gradeNo.value));
      var rows := seq(|ids|, i requires 0 <= i < |ids| => MemberDto(ids[i]));
      assert forall i :: 0 <= i < |rows| ==> rows[i].memberNo in ids;
      forall n | HasMemberWithGrade(members, gradeNo.value, n)
        ensures exists i :: 0 <= i < |rows| && rows[i].memberNo == n
      {
        var i :| 0 <= i < |ids| && ids[i] == n;
        assert rows[i].memberNo == n;
      }
      rows
  }

  /** Granting one coupon to each selected row grants it once to every member
      of the grade, in ascending member order, and to no one else. */
  lemma SelectedGrants(members: seq<Member>, gradeNo: int, couponId: int, out: seq<GivenCouponDto>)
    requires var items := SelectByGrade(members, Some(gradeNo));
             && |out| == |items|
             && forall i :: 0 <= i < |items| ==> out[i] == GivenCouponDto(items[i].memberNo, couponId)
    ensures AscendingMembers(Rows(out, DtoRow))
    ensures GrantsCover(Rows(out, DtoRow), couponId, members, gradeNo)
  {
    var items := SelectByGrade(members, Some(gradeNo));
    var rows := Rows(out, DtoRow);
    forall j | 0 <= j < |members| && members[j].memberGrade.id == gradeNo
      ensures Pk(couponId, members[j].id) in rows
    {
      assert HasMemberWithGrade(members, gradeNo, members[j].id);
      var i :| 0 <= i < |items| && items[i].memberNo == members[j].id;
      assert rows[i] == Pk(couponId, members[j].id);
    }
  }
}
