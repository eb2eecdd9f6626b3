/** GiveCouponMemberStep: the parameterised grade-coupon steps. Each builder
    writes the grade and the coupon into the shared BatchJobParameter; the
    reader and the processor read them back when the step runs. */
module GiveCouponMemberStep {
  import opened Wrappers
  import opened Chunking
  import opened CouponNames
  import opened CouponRepository
  import opened Exceptions
  import opened Members
  import opened GivenCoupons
  import opened JobParameter
  import opened GradeMembers

  const CHUNK_SIZE: nat := 100
  const GVIP_GRADE_NO: int := 1
  const VIP_GRADE_NO: int := 2

  /** gVipGivenCouponMemberStep's builder. */
  method GVipGivenCouponMemberStep(p: BatchJobParameter) returns (s: StepConfig)
    modifies p
    ensures p.gradeNo == Some(GVIP_GRADE_NO) && p.couponName == Some(GVIP)
    ensures p.startDate == old(p.startDate) && p.endDate == old(p.endDate)
    ensures s == StepConfig("gVipGivenCouponMemberStep", CHUNK_SIZE, CHUNK_SIZE, true)
  {
    p.SetGradeNo(GVIP_GRADE_NO);
    p.SetCouponName(GVIP);
    s := StepConfig("gVipGivenCouponMemberStep", CHUNK_SIZE, CHUNK_SIZE, true);
  }

  /** vipGivenCouponMemberStep's builder. */
  method VipGivenCouponMemberStep(p: BatchJobParameter) returns (s: StepConfig)
    modifies p
    ensures p.gradeNo == Some(VIP_GRADE_NO) && p.couponName == Some(VIP)
    ensures p.startDate == old(p.startDate) && p.endDate == old(p.endDate)
    ensures s == StepConfig("vipGivenCouponMemberStep", CHUNK_SIZE, CHUNK_SIZE, true)
  {
    p.SetGradeNo(VIP_GRADE_NO);
    p.SetCouponName(VIP);
    s := StepConfig("vipGivenCouponMemberStep", CHUNK_SIZE, CHUNK_SIZE, true);
  }

  /** processor1(couponId): a member row becomes a grant of that coupon. */
  datatype Delegate = Processor1(couponId: int)

  function Apply(d: Delegate, dto: MemberDto): (g: GivenCouponDto)
    ensures g.memberNo == dto.memberNo && g.couponNo == d.couponId
  {
    GivenCouponDto(dto.memberNo, d.couponId)
  }

  /** givenCouponProcessor: looks the coupon up by the display name of the
      shared parameter's coupon name and builds a composite with a single
      delegate granting that coupon. */
  function GivenCouponProcessor(coupons: seq<Coupon>, couponName: CouponName): (r: Result<seq<Delegate>, BatchError>)
    ensures r.Failure? <==> FindCouponByName(coupons, DisplayName(couponName)).None?
    ensures r.Failure? ==> r.error == CouponNotFound
    ensures r.Success? ==> |r.value| == 1 && r.value[0].couponId == FindCouponByName(coupons, DisplayName(couponName)).value.id
  {
    match FindCouponByName(coupons, DisplayName(couponName))
    case None => Failure(CouponNotFound)
    case Some(coupon) => Success([Processor1(coupon.id)])
  }

  /** The composite applied to one item: with one delegate, that delegate's output. */
  function ApplyComposite(delegates: seq<Delegate>, dto: MemberDto): GivenCouponDto
    requires |delegates| == 1
  {
    Apply(delegates[0], dto)
  }

  function ProcessAll(delegates: seq<Delegate>, rows: seq<MemberDto>): (out: seq<GivenCouponDto>)
    requires |delegates| == 1
    ensures |out| == |rows|
    ensures forall i :: 0 <= i < |rows| ==> out[i] == ApplyComposite(delegates, rows[i])
  {
    seq(|rows|, i requires 0 <= i < |rows| => ApplyComposite(delegates, rows[i]))
  }

  /** The step run with the parameters as they stand: the grants it hands the
      writer, chunk by chunk. A missing coupon fails the step. The parameter's
      coupon name must be set, as the source dereferences it. */
  function GradeCouponStep(p: BatchJobParameter, members: seq<Member>, coupons: seq<Coupon>): (r: Result<seq<seq<GivenCouponDto>>, BatchError>)
    reads p, members
    requires p.couponName.Some?
    ensures r.Failure? <==> FindCouponByName(coupons, DisplayName(p.couponName.value)).None?
    ensures r.Failure? ==> r.error == CouponNotFound
    ensures r.Success? ==> forall c :: 0 <= c < |r.value| ==> 0 < |r.value[c]| <= CHUNK_SIZE
    ensures r.Success? ==>
              var coupon := FindCouponByName(coupons, DisplayName(p.couponName.value)).value;
              var rows := Rows(Flatten(r.value), DtoRow);
              && AscendingMembers(rows)
              && (p.gradeNo.None? ==> rows == [])
              && (p.gradeNo.Some? ==> GrantsCover(rows, coupon.id, members, p.gradeNo.value))
  {
    match GivenCouponProcessor(coupons, p.couponName.value)
    case Failure(e) => Failure(e)
    case Success(delegates) =>
      var items := SelectByGrade(members, p.gradeNo);
      var out := ProcessAll(delegates, items);
      assert p.gradeNo.Some? ==> GrantsCover(Rows(out, DtoRow), delegates[0].couponId, members, p.gradeNo.value) by {
        if p.gradeNo.Some? {
          SelectedGrants(members, p.gradeNo.value, delegates[0].couponId, out);
        }
      }
      Success(Chunks(out, CHUNK_SIZE))
  }

  /** Building the GVIP step and running it at once: the GVIP coupon goes to
      every grade-1 member, once each, in ascending member order, after the
      rows already in the table. */
  method GiveGVipCoupons(p: BatchJobParameter, members: seq<Member>, coupons: seq<Coupon>, table: seq<Pk>)
    returns (r: Result<seq<Pk>, BatchError>)
    modifies p
    ensures p.gradeNo == Some(GVIP_GRADE_NO) && p.couponName == Some(GVIP)
    ensures p.startDate == old(p.startDate) && p.endDate == old(p.endDate)
    ensures r.Failure? <==> FindCouponByName(coupons, DisplayName(GVIP)).None?
    ensures r.Failure? ==> r.error == CouponNotFound
    ensures r.Success? ==>
              var coupon := FindCouponByName(coupons, DisplayName(GVIP)).value;
              && |r.value| >= |table| && r.value[..|table|] == table
              && AscendingMembers(r.value[|table|..])
              && GrantsCover(r.value[|table|..], coupon.id, members, GVIP_GRADE_NO)
  {
    var _ := GVipGivenCouponMemberStep(p);
    var chunks := GradeCouponStep(p, members, coupons);
    if chunks.Failure? {
      return Failure(chunks.error);
    }
    var t := WriteChunks(table, chunks.value, DtoRow);
    assert t[|table|..] == Rows(Flatten(chunks.value), DtoRow);
    r := Success(t);
  }

  /** The same for the VIP step: the VIP coupon to every grade-2 member. */
  method GiveVipCoupons(p: BatchJobParameter, members: seq<Member>, coupons: seq<Coupon>, table: seq<Pk>)
    returns (r: Result<seq<Pk>, BatchError>)
    modifies p
    ensures p.gradeNo == Some(VIP_GRADE_NO) && p.couponName == Some(VIP)
    ensures p.startDate == old(p.startDate) && p.endDate == old(p.endDate)
    ensures r.Failure? <==> FindCouponByName(coupons, DisplayName(VIP)).None?
    ensures r.Failure? ==> r.error == CouponNotFound
    ensures r.Success? ==>
              var coupon := FindCouponByName(coupons, DisplayName(VIP)).value;
              && |r.value| >= |table| && r.value[..|table|] == table
              && AscendingMembers(r.value[|table|..])
              && GrantsCover(r.value[|table|..], coupon.id, members, VIP_GRADE_NO)
  {
    var _ := VipGivenCouponMemberStep(p);
    var chunks := GradeCouponStep(p, members, coupons);
    if chunks.Failure? {
      return Failure(chunks.error);
    }
    var t := WriteChunks(table, chunks.value, DtoRow);
    assert t[|table|..] == Rows(Flatten(chunks.value), DtoRow);
    r := Success(t);
  }
}
