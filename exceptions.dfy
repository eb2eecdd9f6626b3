/** The three exceptions the batch throws when a reference row is missing. */
module Exceptions {

  datatype BatchError =
    | CouponNotFound       // CouponNotFoundException
    | MemberGradeNotFound  // MemberGradeNotFoundException
    | MemberNotFound       // MemberNotFoundException

  /** The message each exception carries. */
  function Message(e: BatchError): string {
    match e
    case CouponNotFound => "쿠폰을 찾을 수 없습니다."
    case MemberGradeNotFound => "회원 등급을 찾을 수 없습니다."
    case MemberNotFound => "회원을 찾을 수 없습니다."
  }
}
