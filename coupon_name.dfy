/** The coupon-name enum: each constant carries the display name under which
    its coupon row is stored in the `coupons` table. */
module CouponNames {

  datatype CouponName = GVIP | VIP | BIRTHDAY

  /** CouponName.couponName(). */
  function DisplayName(c: CouponName): string {
    match c
    case GVIP => "GVIP 쿠폰"
    case VIP => "VIP 쿠폰"
    case BIRTHDAY => "생일 쿠폰"
  }

  lemma DisplayNames()
    ensures DisplayName(GVIP) == "GVIP 쿠폰"
    ensures DisplayName(VIP) == "VIP 쿠폰"
    ensures DisplayName(BIRTHDAY) == "생일 쿠폰"
  {
  }

  /** No two constants share a display name, so a lookup by name finds the
      coupon of one constant only. */
  lemma DisplayNameInjective(a: CouponName, b: CouponName)
    ensures DisplayName(a) == DisplayName(b) ==> a == b
  {
  }
}
