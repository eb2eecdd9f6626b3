/** The `members` and `member_grades` tables. A Member is an object whose grade
    the batch overwrites in place; its other columns never change here, so they
    are constants. */
module Members {
  import opened Wrappers
  import opened Dates

  /** A row of `member_grades`: 1 is GVIP, 2 VIP, 3 MEMBER. */
  datatype MemberGrade = MemberGrade(id: int, grade: string)

  class Member {
    const id: int
    var memberGrade: MemberGrade
    const cartNo: Option<int>      // the Cart entity (not part of this model) by its id
    const uuid: string
    const gender: char
    const birthDate: Option<Date>  // the column may be NULL
    const ggpassUpdatedAt: Option<LocalDateTime>
    const createdAt: LocalDateTime
    const updatedAt: Option<LocalDateTime>
    const deletedAt: Option<LocalDateTime>

    /** A member as the persistence layer loads it. */
    constructor (id: int, memberGrade: MemberGrade, cartNo: Option<int>, uuid: string, gender: char,
                 birthDate: Option<Date>, ggpassUpdatedAt: Option<LocalDateTime>, createdAt: LocalDateTime,
                 updatedAt: Option<LocalDateTime>, deletedAt: Option<LocalDateTime>)
      ensures this.id == id && this.memberGrade == memberGrade && this.cartNo == cartNo
      ensures this.uuid == uuid && this.gender == gender && this.birthDate == birthDate
      ensures this.ggpassUpdatedAt == ggpassUpdatedAt && this.createdAt == createdAt
      ensures this.updatedAt == updatedAt && this.deletedAt == deletedAt
    {
      this.id := id;
      this.memberGrade := memberGrade;
      this.cartNo := cartNo;
      this.uuid := uuid;
      this.gender := gender;
      this.birthDate := birthDate;
      this.ggpassUpdatedAt := ggpassUpdatedAt;
      this.createdAt := createdAt;
      this.updatedAt := updatedAt;
      this.deletedAt := deletedAt;
    }

    /** Member.updateGrade: afterwards the grade is `grade`, whatever it was
        before, so a repeated call changes nothing and the last call wins; the
        other fields are constants. */
    method UpdateGrade(grade: MemberGrade)
      modifies this
      ensures memberGrade == grade
    {
      memberGrade := grade;
    }
  }

  /** MemberRepository.findById's table: each key maps to the member with that id. */
  predicate IsMemberTable(members: map<int, Member>) {
    forall k :: k in members ==> members[k].id == k
  }

  /** Two keys of a member table never share an object. */
  lemma MemberTableDistinct(members: map<int, Member>, k1: int, k2: int)
    requires IsMemberTable(members) && k1 in members && k2 in members
    ensures members[k1] == members[k2] <==> k1 == k2
  {
  }

  function FindMemberById(members: map<int, Member>, id: int): (r: Option<Member>)
    requires IsMemberTable(members)
    ensures r.Some? <==> id in members
    ensures r.Some? ==> r.value.id == id && r.value in members.Values
  {
    if id in members then Some(members[id]) else None
  }

  /** MemberGradeRepository.findById's table: each key maps to the grade with that id. */
  predicate IsGradeTable(grades: map<int, MemberGrade>) {
    forall k :: k in grades ==> grades[k].id == k
  }

  /** MemberGradeRepository.findById. */
  function FindGradeById(grades: map<int, MemberGrade>, id: int): (r: Option<MemberGrade>)
    requires IsGradeTable(grades)
    ensures r.Some? <==> id in grades
    ensures r.Some? ==> r.value == grades[id] && r.value.id == id
  {
    if id in grades then Some(grades[id]) else None
  }

  /** Some member row has this id and, at the moment, this grade id. */
  ghost predicate HasMemberWithGrade(members: seq<Member>, gradeNo: int, n: int)
    reads members
  {
    exists i :: 0 <= i < |members| && members[i].id == n && members[i].memberGrade.id == gradeNo
  }
}
