/** BatchJobParameter: the job-scoped holder the grade-coupon steps share. */
module JobParameter {
  import opened Wrappers
  import opened Dates
  import opened CouponNames

  class BatchJobParameter {
    /** Injected from the job parameters `startDate` and `endDate`; no core step reads them. */
    var startDate: Option<Date>
    var endDate: Option<Date>
    /** Injected from `gradeNo` and `couponName`, which the scheduler never
        supplies, then set by the step builders. */
    var gradeNo: Option<int>
    var couponName: Option<CouponName>

    constructor(startDate: Option<Date>, endDate: Option<Date>, gradeNo: Option<int>, couponName: Option<CouponName>)
      ensures this.startDate == startDate && this.endDate == endDate
      ensures this.gradeNo == gradeNo && this.couponName == couponName
    {
      this.startDate := startDate;
      this.endDate := endDate;
      this.gradeNo := gradeNo;
      this.couponName := couponName;
    }

    method SetGradeNo(gradeNo: int)
      modifies this
      ensures this.gradeNo == Some(gradeNo)
      ensures startDate == old(startDate) && endDate == old(endDate) && couponName == old(couponName)
    {
      this.gradeNo := Some(gradeNo);
    }

    method SetCouponName(couponName: CouponName)
      modifies this
      ensures this.couponName == Some(couponName)
      ensures startDate == old(startDate) && endDate == old(endDate) && gradeNo == old(gradeNo)
    {
      this.couponName := Some(couponName);
    }
  }
}
