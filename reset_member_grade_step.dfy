/** memberGradeResetStep: every member back to the MEMBER grade. */
module ResetMemberGradeStep {
  import opened Wrappers
  import opened Chunking
  import opened Exceptions
  import opened Members

  const CHUNK_SIZE: nat := 1000
  const MEMBER: int := 3

  const Config: StepConfig := StepConfig("memberGradeResetStep", CHUNK_SIZE, CHUNK_SIZE, true)

  /** memberGradeResetProcessor: look up grade MEMBER and give it to the member. */
  method ResetGradeProcessor(member: Member, grades: map<int, MemberGrade>) returns (r: Result<Member, BatchError>)
    requires IsGradeTable(grades)
    modifies member
    ensures r.Success? <==> MEMBER in grades
    ensures r.Success? ==> r.value == member && member.memberGrade == grades[MEMBER] && member.memberGrade.id == MEMBER
    ensures r.Failure? ==> r.error == MemberGradeNotFound && member.memberGrade == old(member.memberGrade)
  {
    var grade := FindGradeById(grades, MEMBER);
    if grade.None? {
      return Failure(MemberGradeNotFound);
    }
    member.UpdateGrade(grade.value);
    r := Success(member);
  }

  /** The step over every member row ("SELECT m FROM Member m"). When
      grade MEMBER is missing the first member fails and nothing changes;
      otherwise every member ends up with grade MEMBER, whatever it had, and
      the writer receives all of them in reader order in chunks of CHUNK_SIZE. */
  method MemberGradeResetStep(members: seq<Member>, grades: map<int, MemberGrade>)
    returns (r: Result<seq<seq<Member>>, BatchError>)
    requires IsGradeTable(grades)
    modifies set m | m in members
    ensures r.Failure? <==> |members| > 0 && MEMBER !in grades
    ensures r.Failure? ==> r.error == MemberGradeNotFound
    ensures r.Failure? ==> forall i :: 0 <= i < |members| ==> members[i].memberGrade == old(members[i].memberGrade)
    ensures r.Success? ==> Flatten(r.value) == members
    ensures r.Success? ==> forall c :: 0 <= c < |r.value| ==> 0 < |r.value[c]| <= CHUNK_SIZE
    ensures r.Success? ==> forall i :: 0 <= i < |members| ==> members[i].memberGrade == grades[MEMBER] && members[i].memberGrade.id == MEMBER
  {
    var out: seq<Member> := [];
    var i := 0;
    while i < |members|
      invariant 0 <= i <= |members|
      invariant out == members[..i]
      invariant i > 0 ==> MEMBER in grades
      invariant i == 0 ==> forall j :: 0 <= j < |members| ==> members[j].memberGrade == old(members[j].memberGrade)
      invariant forall j :: 0 <= j < i ==> members[j].memberGrade == grades[MEMBER]
    {
      var processed := ResetGradeProcessor(members[i], grades);
      if processed.Failure? {
        return Failure(processed.error);
      }
      out := out + [processed.value];
      i := i + 1;
    }
    assert out == members;
    r := Success(Chunks(out, CHUNK_SIZE));
  }
}
