/** CouponIssuanceScheduler: the daily birthday-coupon grant and the monthly
    launch of the grade job. The clock readings are parameters. */
module CouponIssuanceScheduler {
  import opened Wrappers
  import opened Dates
  import opened CouponNames
  import opened CouponRepository
  import opened Exceptions
  import opened Members
  import opened MemberRepository
  import opened GivenCoupons

  // ---------------------------------------------------------------------
  // scheduleBirthdayCoupon

  /** Looks the birthday coupon up (failing when it is missing), finds the
      members whose birth `MM-dd` is today's, and saves one grant per member
      in the order the query returns them. Afterwards every member born on
      today's month and day, in any year, holds the coupon, every row the
      table gained is such a member's, and the old rows are untouched. A key
      already stored (a grant from an earlier year) adds no row;
      FreshBirthdayGrantsAppend gives the rows added when none is. */
  method ScheduleBirthdayCoupon(coupons: seq<Coupon>, members: seq<Member>, now: LocalDateTime, table: seq<Pk>)
    returns (r: Result<seq<Pk>, BatchError>)
    ensures r.Failure? <==> FindCouponByName(coupons, DisplayName(BIRTHDAY)).None?
    ensures r.Failure? ==> r.error == CouponNotFound
    ensures r.Success? ==>
              var coupon := FindCouponByName(coupons, DisplayName(BIRTHDAY)).value;
              r.value == SaveAll(table, Grants(coupon, FindAllMembersByBirthday(members, MonthDay(now.date))))
    ensures r.Success? ==> |r.value| >= |table| && r.value[..|table|] == table
    ensures r.Success? && DistinctKeys(table) ==> DistinctKeys(r.value)
    ensures r.Success? ==>
              var coupon := FindCouponByName(coupons, DisplayName(BIRTHDAY)).value;
              && (forall j :: 0 <= j < |members| && BornOn(members[j], now.date) ==>
                    Pk(coupon.id, members[j].id) in r.value)
              && (forall i :: |table| <= i < |r.value| ==>
                    r.value[i].couponId == coupon.id && exists m :: m in members && BornOn(m, now.date) && m.id == r.value[i].memberNo)
  {
    var lookup := FindCouponByName(coupons, DisplayName(BIRTHDAY));
    if lookup.None? {
      return Failure(CouponNotFound);
    }
    var birthdayCoupon := lookup.value;
    var todayDate := MonthDay(now.date);
    var born := FindAllMembersByBirthday(members, todayDate);
    var t := SaveBirthdayGrants(table, birthdayCoupon, born);
    BirthdayMembersHoldCoupon(members, now.date, birthdayCoupon, table, t);
    BirthdayRowsAreBirthdayMembers(members, now.date, birthdayCoupon, table, t);
    if DistinctKeys(table) {
      SaveAllDistinct(table, Grants(birthdayCoupon, born));
    }
    r := Success(t);
  }

  /** The loop of scheduleBirthdayCoupon: `save(new GivenCoupon(coupon, member))`
      for each member in turn. */
  method SaveBirthdayGrants(table: seq<Pk>, coupon: Coupon, born: seq<Member>) returns (t: seq<Pk>)
    ensures t == SaveAll(table, Grants(coupon, born))
  {
    ghost var grants := Grants(coupon, born);
    t := table;
    for i := 0 to |born|
      invariant t == SaveAll(table, grants[..i])
    {
      var givenCoupon := NewGivenCoupon(coupon, born[i]);
      assert grants[..i + 1][..i] == grants[..i];
      assert grants[..i + 1][i] == givenCoupon;
      t := Save(t, givenCoupon);
    }
    assert grants[..|born|] == grants;
  }

  /** After the birthday grants every member born on today's month and day,
      in any year, holds the coupon. */
  lemma BirthdayMembersHoldCoupon(members: seq<Member>, today: Date, coupon: Coupon, table: seq<Pk>, t: seq<Pk>)
    requires t == SaveAll(table, Grants(coupon, FindAllMembersByBirthday(members, MonthDay(today))))
    ensures forall j :: 0 <= j < |members| && BornOn(members[j], today) ==> Pk(coupon.id, members[j].id) in t
  {
    SaveAllKeys(table, Grants(coupon, FindAllMembersByBirthday(members, MonthDay(today))));
    BirthdayMembersGetGrants(members, today, coupon);
  }

  /** Every row the birthday grants add is the coupon's, for a member born
      on today's month and day. */
  lemma BirthdayRowsAreBirthdayMembers(members: seq<Member>, today: Date, coupon: Coupon, table: seq<Pk>, t: seq<Pk>)
    requires t == SaveAll(table, Grants(coupon, FindAllMembersByBirthday(members, MonthDay(today))))
    ensures forall i :: |table| <= i < |t| ==>
              t[i].couponId == coupon.id && exists m :: m in members && BornOn(m, today) && m.id == t[i].memberNo
  {
    SaveAllKeys(table, Grants(coupon, FindAllMembersByBirthday(members, MonthDay(today))));
    BirthdayGrantsAreBirthdayMembers(members, today, coupon);
  }

  /** Every member born on today's month and day gets a grant key. */
  lemma BirthdayMembersGetGrants(members: seq<Member>, today: Date, coupon: Coupon)
    ensures var keys := Rows(Grants(coupon, FindAllMembersByBirthday(members, MonthDay(today))), EntityRow);
            forall j :: 0 <= j < |members| && BornOn(members[j], today) ==> Pk(coupon.id, members[j].id) in keys
  {
    var born := FindAllMembersByBirthday(members, MonthDay(today));
    var keys := Rows(Grants(coupon, born), EntityRow);
    forall j | 0 <= j < |members| && BornOn(members[j], today)
      ensures Pk(coupon.id, members[j].id) in keys
    {
      BirthdayKeyOfDay(members[j], today);
      var k :| 0 <= k < |born| && born[k] == members[j];
      assert keys[k] == Pk(coupon.id, members[j].id);
    }
  }

  /** Every grant key is the coupon's, for a member born on today's month and day. */
  lemma BirthdayGrantsAreBirthdayMembers(members: seq<Member>, today: Date, coupon: Coupon)
    ensures var keys := Rows(Grants(coupon, FindAllMembersByBirthday(members, MonthDay(today))), EntityRow);
            forall k :: k in keys ==> k.couponId == coupon.id && exists m :: m in members && BornOn(m, today) && m.id == k.memberNo
  {
    var born := FindAllMembersByBirthday(members, MonthDay(today));
    var keys := Rows(Grants(coupon, born), EntityRow);
    forall k | k in keys
      ensures k.couponId == coupon.id && exists m :: m in members && BornOn(m, today) && m.id == k.memberNo
    {
      var i :| 0 <= i < |keys| && keys[i] == k;
      BirthdayKeyOfDay(born[i], today);
    }
  }

  /** Birthday grants whose keys are all new and distinct are appended one
      per member, in query order. */
  lemma FreshBirthdayGrantsAppend(born: seq<Member>, coupon: Coupon, table: seq<Pk>)
    requires forall i :: 0 <= i < |born| ==> Pk(coupon.id, born[i].id) !in table
    requires forall i, j :: 0 <= i < j < |born| ==> born[i].id != born[j].id
    ensures var t := SaveAll(table, Grants(coupon, born));
            && |t| == |table| + |born|
            && forall i :: 0 <= i < |born| ==> t[|table| + i] == Pk(coupon.id, born[i].id)
  {
    var grants := Grants(coupon, born);
    var keys := Rows(grants, EntityRow);
    assert DistinctKeys(keys) by {
      forall i, j | 0 <= i < j < |keys| ensures keys[i] != keys[j] {
        assert keys[i].memberNo == born[i].id && keys[j].memberNo == born[j].id;
      }
    }
    assert forall i :: 0 <= i < |grants| ==> grants[i].pk == Pk(coupon.id, born[i].id);
    SaveAllFresh(table, grants);
  }

  // ---------------------------------------------------------------------
  // scheduleMemberGradeCoupon

  /** Months are numbered consecutively, so an earlier month number is an
      earlier month. */
  lemma MonthIndexOrdersDates(a: Date, b: Date)
    ensures MonthIndex(a) < MonthIndex(b) ==> Before(a, b)
    ensures MonthIndex(a) == MonthIndex(b) ==> a.year == b.year && a.month == b.month
  {
  }

  /** The job's window: the first day of last month up to the first day of
      this month. */
  function MonthlyWindow(today: Date): (w: (Date, Date))
    ensures w.0.day == 1 && w.1.day == 1
    ensures w.1.year == today.year && w.1.month == today.month
    ensures MonthIndex(w.0) == MonthIndex(today) - 1
    ensures Before(w.0, w.1)
    ensures PlusMonths(w.0, 1) == w.1
  {
    var previousMonth := MinusMonths(today, 1);
    var startOfDay := WithDayOfMonth(previousMonth, 1);
    var endOfDay := WithDayOfMonth(today, 1);
    MonthIndexOrdersDates(startOfDay, endOfDay);
    MonthIndexOrdersDates(PlusMonths(startOfDay, 1), endOfDay);
    (startOfDay, endOfDay)
  }

  /** In January the window starts on 1 December of the year before. */
  lemma JanuaryWindow(today: Date)
    requires today.month == 1
    ensures MonthlyWindow(today).0 == LocalDate(today.year - 1, 12, 1)
  {
    var start := MonthlyWindow(today).0;
    MonthIndexOrdersDates(start, LocalDate(today.year - 1, 12, 1));
  }

  /** The job parameters: both dates in ISO form. */
  function GradeJobParameters(today: Date): (ps: map<string, string>)
    ensures ps.Keys == {"startDate", "endDate"}
    ensures ParseIsoDate(ps["startDate"]) == Some(MonthlyWindow(today).0)
    ensures ParseIsoDate(ps["endDate"]) == Some(MonthlyWindow(today).1)
  {
    var (startOfDay, endOfDay) := MonthlyWindow(today);
    DateParameters(startOfDay, endOfDay)
  }

  /** The job parameters naming a read window by its two ISO dates. */
  function DateParameters(startDate: Date, endDate: Date): (ps: map<string, string>)
    ensures ps.Keys == {"startDate", "endDate"}
    ensures ParseIsoDate(ps["startDate"]) == Some(startDate)
    ensures ParseIsoDate(ps["endDate"]) == Some(endDate)
  {
    IsoDateRoundTrip(startDate);
    IsoDateRoundTrip(endDate);
    map["startDate" := IsoDate(startDate), "endDate" := IsoDate(endDate)]
  }

  /** What JobLauncher.run can end with, as far as the scheduler tells them apart. */
  datatype LaunchOutcome =
    | Launched
    | JobExecutionAlreadyRunning
    | JobInstanceAlreadyComplete
    | JobParametersInvalid
    | JobRestart
    | Unchecked

  /** The four checked exceptions the scheduler logs and swallows. */
  predicate IsCaught(o: LaunchOutcome) {
    o.JobExecutionAlreadyRunning? || o.JobInstanceAlreadyComplete? || o.JobParametersInvalid? || o.JobRestart?
  }

  /** Launches the grade job once with this month's parameters; `launch`
      stands for the launcher and the job. The scheduler returns normally
      unless the launch throws something it does not catch, which then leaves
      the method. */
  function ScheduleMemberGradeCoupon(today: Date, launch: map<string, string> -> LaunchOutcome): (r: Result<map<string, string>, LaunchOutcome>)
    ensures r.Failure? <==> launch(GradeJobParameters(today)).Unchecked?
    ensures r.Failure? ==> r.error == Unchecked
    ensures r.Success? ==> r.value == GradeJobParameters(today)
    ensures r.Success? ==> launch(r.value) == Launched || IsCaught(launch(r.value))
  {
    var jobParameters := GradeJobParameters(today);
    match launch(jobParameters)
    case Unchecked => Failure(Unchecked)
    case _ => Success(jobParameters)
  }
}
