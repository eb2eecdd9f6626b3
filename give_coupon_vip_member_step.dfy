/** GiveCouponVIPMemberStep: the fixed VIP-coupon step, with its own reader
    (grade 2 written into the reader), processor and writer. */
module GiveCouponVipMemberStep {
  import opened Wrappers
  import opened Chunking
  import opened CouponNames
  import opened CouponRepository
  import opened Exceptions
  import opened Members
  import opened GivenCoupons
  import opened JobParameter
  import opened GradeMembers
  import GiveCouponMemberStep

  const CHUNK_SIZE: nat := 100
  const VIP_GRADE_NO: int := 2

  const Config: StepConfig := StepConfig("vipGivenCouponMemberStep", CHUNK_SIZE, CHUNK_SIZE, true)

  /** vipGivenCouponProcessor: the VIP coupon's id, or the lookup's failure. */
  function VipGivenCouponProcessor(coupons: seq<Coupon>): (r: Result<int, BatchError>)
    ensures r.Failure? <==> FindCouponByName(coupons, DisplayName(VIP)).None?
    ensures r.Failure? ==> r.error == CouponNotFound
    ensures r.Success? ==> r.value == FindCouponByName(coupons, DisplayName(VIP)).value.id
  {
    match FindCouponByName(coupons, DisplayName(VIP))
    case None => Failure(CouponNotFound)
    case Some(coupon) => Success(coupon.id)
  }

  /** The step: every grade-2 member, ascending, gets the VIP coupon. */
  function VipCouponStep(members: seq<Member>, coupons: seq<Coupon>): (r: Result<seq<seq<GivenCouponDto>>, BatchError>)
    reads members
    ensures r.Failure? <==> FindCouponByName(coupons, DisplayName(VIP)).None?
    ensures r.Failure? ==> r.error == CouponNotFound
    ensures r.Success? ==> forall c :: 0 <= c < |r.value| ==> 0 < |r.value[c]| <= CHUNK_SIZE
    ensures r.Success? ==>
              var rows := Rows(Flatten(r.value), DtoRow);
              && AscendingMembers(rows)
              && GrantsCover(rows, FindCouponByName(coupons, DisplayName(VIP)).value.id, members, VIP_GRADE_NO)
  {
    match VipGivenCouponProcessor(coupons)
    case Failure(e) => Failure(e)
    case Success(couponId) =>
      var items := SelectByGrade(members, Some(VIP_GRADE_NO));
      var out := seq(|items|, i requires 0 <= i < |items| => GivenCouponDto(items[i].memberNo, couponId));
      SelectedGrants(members, VIP_GRADE_NO, couponId, out);
      Success(Chunks(out, CHUNK_SIZE))
  }

  /** This step and the parameterised VIP step hand the writer the same
      chunks once the shared parameters hold grade 2 and the VIP coupon; their
      writers run the same insert. */
  lemma SameAsParameterisedVipStep(p: BatchJobParameter, members: seq<Member>, coupons: seq<Coupon>)
    requires p.gradeNo == Some(VIP_GRADE_NO) && p.couponName == Some(VIP)
    ensures VipCouponStep(members, coupons) == GiveCouponMemberStep.GradeCouponStep(p, members, coupons)
  {
    var lookup := FindCouponByName(coupons, DisplayName(VIP));
    if lookup.Some? {
      var items := SelectByGrade(members, Some(VIP_GRADE_NO));
      var delegates := [GiveCouponMemberStep.Processor1(lookup.value.id)];
      var mine := seq(|items|, i requires 0 <= i < |items| => GivenCouponDto(items[i].memberNo, lookup.value.id));
      assert mine == GiveCouponMemberStep.ProcessAll(delegates, items);
    }
  }
}
