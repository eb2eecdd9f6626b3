/** memberGradeUpdateStep: sums each member's orders over a window, derives the
    grade from the sum and stores it on the member. */
module UpdateMemberGradeStep {
  import opened Wrappers
  import opened Chunking
  import opened SqlOrder
  import opened Dates
  import opened Exceptions
  import opened Members

  const CHUNK_SIZE: nat := 5
  const GVIP: int := 1
  const VIP: int := 2
  const MEMBER: int := 3

  const Config: StepConfig := StepConfig("memberGradeUpdateStep", CHUNK_SIZE, CHUNK_SIZE, true)

  lemma ConfigSizes()
    ensures Config.chunkSize == Config.pageSize == 5 && Config.allowStartIfComplete
  {
  }

  // ---------------------------------------------------------------------
  // Reader: select member_no, sum(total_amount) from orders
  //         where created_at >= :start_date and created_at <= :end_date
  //         group by member_no, sorted by member_no ascending

  /** A row of `orders` as far as the reader looks at it. */
  datatype Order = Order(memberNo: int, totalAmount: int, createdAt: LocalDateTime)

  /** MemberPaymentDto: a member and the sum of their order amounts. */
  datatype MemberPaymentDto = MemberPaymentDto(memberNo: int, totalAmount: int)

  /** The window is written into the reader and is not the job's parameters. */
  const START_DATE: Date := LocalDate(2022, 8, 1)
  const END_DATE: Date := LocalDate(2022, 8, 31)

  /** A datetime compared with a date string compares with that day's
      midnight, so of 31 August only the first instant is inside. */
  function InReadWindow(o: Order): (b: bool)
    ensures b <==> var d := o.createdAt.date;
                   d.year == 2022 && d.month == 8 && (d.day < 31 || IsStartOfDay(o.createdAt))
  {
    var d := o.createdAt.date;
    !Before(d, START_DATE) && (Before(d, END_DATE) || (d == END_DATE && IsStartOfDay(o.createdAt)))
  }

  function WindowOrders(orders: seq<Order>): (w: seq<Order>)
    ensures forall o :: o in w <==> o in orders && InReadWindow(o)
    decreases |orders|
  {
    if orders == [] then []
    else
      assert orders == [orders[0]] + orders[1..];
      (if InReadWindow(orders[0]) then [orders[0]] else []) + WindowOrders(orders[1..])
  }

  /** The window keeps every order inside it as often as it is stored, and
      no other: this is the list the sums run over. */
  lemma {:induction false} WindowOrdersCounts(orders: seq<Order>)
    ensures forall o :: multiset(WindowOrders(orders))[o] == if InReadWindow(o) then multiset(orders)[o] else 0
    decreases |orders|
  {
    if orders != [] {
      WindowOrdersCounts(orders[1..]);
      assert orders == [orders[0]] + orders[1..];
    }
  }

  function OrderMemberNos(orders: seq<Order>): (ns: seq<int>)
    ensures forall n :: n in ns <==> exists o :: o in orders && o.memberNo == n
    decreases |orders|
  {
    if orders == [] then []
    else
      assert orders == [orders[0]] + orders[1..];
      [orders[0].memberNo] + OrderMemberNos(orders[1..])
  }

  /** sum(total_amount) over the orders of one member. */
  function TotalAmount(orders: seq<Order>, memberNo: int): (t: int)
    ensures (forall i :: 0 <= i < |orders| ==> orders[i].memberNo != memberNo) ==> t == 0
    ensures (forall i :: 0 <= i < |orders| ==> orders[i].totalAmount >= 0) ==> t >= 0
    decreases |orders|
  {
    if orders == [] then 0
    else (if orders[0].memberNo == memberNo then orders[0].totalAmount else 0) + TotalAmount(orders[1..], memberNo)
  }

  /** The reader's rows: ascending by member number, each with the sum of
      that member's windowed orders. MemberPaymentsCoverage states which
      members have a row. */
  function MemberPayments(orders: seq<Order>): (rows: seq<MemberPaymentDto>)
    ensures forall i, j :: 0 <= i < j < |rows| ==> rows[i].memberNo < rows[j].memberNo
    ensures forall i :: 0 <= i < |rows| ==> rows[i].totalAmount == TotalAmount(WindowOrders(orders), rows[i].memberNo)
  {
    var window := WindowOrders(orders);
    var ids := SortedDistinct(OrderMemberNos(window));
    seq(|ids|, i requires 0 <= i < |ids| => MemberPaymentDto(ids[i], TotalAmount(window, ids[i])))
  }

  /** `group by member_no`: the reader has a row for a member exactly when
      that member has an order in the window. */
  lemma MemberPaymentsCoverage(orders: seq<Order>)
    ensures var rows := MemberPayments(orders);
            && (forall i :: 0 <= i < |rows| ==> exists o :: o in orders && InReadWindow(o) && o.memberNo == rows[i].memberNo)
            && (forall o :: o in orders && InReadWindow(o) ==> exists i :: 0 <= i < |rows| && rows[i].memberNo == o.memberNo)
  {
    var ids := SortedDistinct(OrderMemberNos(WindowOrders(orders)));
    var rows := MemberPayments(orders);
    PaymentMemberNos(orders);
    forall i | 0 <= i < |rows|
      ensures exists o :: o in orders && InReadWindow(o) && o.memberNo == rows[i].memberNo
    {
      RowHasWindowOrder(orders, ids, i);
    }
    forall o | o in orders && InReadWindow(o)
      ensures exists i :: 0 <= i < |rows| && rows[i].memberNo == o.memberNo
    {
      var i := WindowOrderHasRow(orders, ids, o);
      assert rows[i].memberNo == o.memberNo;
    }
  }

  /** The reader's rows are the sorted member numbers of the window orders. */
  lemma PaymentMemberNos(orders: seq<Order>)
    ensures var ids := SortedDistinct(OrderMemberNos(WindowOrders(orders)));
            var rows := MemberPayments(orders);
            |rows| == |ids| && forall i :: 0 <= i < |rows| ==> rows[i].memberNo == ids[i]
  {
  }

  lemma RowHasWindowOrder(orders: seq<Order>, ids: seq<int>, i: int)
    requires ids == SortedDistinct(OrderMemberNos(WindowOrders(orders)))
    requires 0 <= i < |ids|
    ensures exists o :: o in orders && InReadWindow(o) && o.memberNo == ids[i]
  {
    var window := WindowOrders(orders);
    assert ids[i] in OrderMemberNos(window);
    var o :| o in window && o.memberNo == ids[i];
    assert o in orders && InReadWindow(o);
  }

  lemma WindowOrderHasRow(orders: seq<Order>, ids: seq<int>, o: Order) returns (i: int)
    requires ids == SortedDistinct(OrderMemberNos(WindowOrders(orders)))
    requires o in orders && InReadWindow(o)
    ensures 0 <= i < |ids| && ids[i] == o.memberNo
  {
    var window := WindowOrders(orders);
    assert o in window;
    assert o.memberNo in OrderMemberNos(window);
    i :| 0 <= i < |ids| && ids[i] == o.memberNo;
  }

  // ---------------------------------------------------------------------
  // Processor

  /** A total the amount has reached is enough for a grade: 500,000 for GVIP,
      300,000 for VIP, nothing for MEMBER. */
  predicate Qualifies(amount: int, grade: int) {
    grade == MEMBER || (grade == VIP && amount >= 300_000) || (grade == GVIP && amount >= 500_000)
  }

  predicate IsGradeId(grade: int) {
    grade == GVIP || grade == VIP || grade == MEMBER
  }

  /** The processor's tier rule: the best grade (lowest id) the amount qualifies for. */
  function GradeForAmount(amount: int): (g: int)
    ensures IsGradeId(g) && Qualifies(amount, g)
    ensures forall h :: IsGradeId(h) && Qualifies(amount, h) ==> g <= h
  {
    if amount < 300_000 then MEMBER
    else if amount < 500_000 then VIP
    else GVIP
  }

  lemma GradeBoundaries()
    ensures GradeForAmount(299_999) == MEMBER
    ensures GradeForAmount(300_000) == VIP
    ensures GradeForAmount(499_999) == VIP
    ensures GradeForAmount(500_000) == GVIP
  {
  }

  /** Spending more never gives a worse (higher-numbered) grade. */
  lemma GradeMonotone(a: int, b: int)
    requires a <= b
    ensures GradeForAmount(b) <= GradeForAmount(a)
  {
  }

  /** Why processing a row fails, if it does: the grade lookup comes first, so
      a missing grade row wins over a missing member. */
  function ProcessError(row: MemberPaymentDto, grades: map<int, MemberGrade>, memberIds: set<int>): (e: Option<BatchError>)
    ensures e.None? <==> GradeForAmount(row.totalAmount) in grades && row.memberNo in memberIds
    ensures e == Some(MemberNotFound) <==> GradeForAmount(row.totalAmount) in grades && row.memberNo !in memberIds
    ensures e.Some? ==> e.value == MemberGradeNotFound || e.value == MemberNotFound
  {
    if GradeForAmount(row.totalAmount) !in grades then Some(MemberGradeNotFound)
    else if row.memberNo !in memberIds then Some(MemberNotFound)
    else None
  }

  /** updateGradeProcessor: look up the grade for the row's amount, then the
      member, and give the member that grade. Never filters. */
  method UpdateGradeProcessor(row: MemberPaymentDto, grades: map<int, MemberGrade>, members: map<int, Member>)
    returns (r: Result<Member, BatchError>)
    requires IsMemberTable(members) && IsGradeTable(grades)
    modifies members.Values
    ensures r.Failure? <==> ProcessError(row, grades, members.Keys).Some?
    ensures r.Failure? ==> r.error == ProcessError(row, grades, members.Keys).value
    ensures r.Failure? ==> forall k :: k in members ==> members[k].memberGrade == old(members[k].memberGrade)
    ensures r.Success? ==> r.value == members[row.memberNo] && r.value.id == row.memberNo
    ensures r.Success? ==> r.value.memberGrade == grades[GradeForAmount(row.totalAmount)]
    ensures r.Success? ==> r.value.memberGrade.id == GradeForAmount(row.totalAmount)
    ensures forall k :: k in members && k != row.memberNo ==> members[k].memberGrade == old(members[k].memberGrade)
  {
    var grade := FindGradeById(grades, GradeForAmount(row.totalAmount));
    if grade.None? {
      return Failure(MemberGradeNotFound);
    }
    var member := FindMemberById(members, row.memberNo);
    if member.None? {
      return Failure(MemberNotFound);
    }
    forall k | k in members && k != row.memberNo
      ensures members[k] != member.value
    {
      MemberTableDistinct(members, k, row.memberNo);
    }
    member.value.UpdateGrade(grade.value);
    r := Success(member.value);
  }

  /** Where processing stops: the first row whose processing fails, or the
      number of rows when none does. */
  function FirstFailure(rows: seq<MemberPaymentDto>, grades: map<int, MemberGrade>, memberIds: set<int>): (k: nat)
    ensures k <= |rows|
    ensures forall j :: 0 <= j < k ==> ProcessError(rows[j], grades, memberIds).None?
    ensures k < |rows| ==> ProcessError(rows[k], grades, memberIds).Some?
    decreases |rows|
  {
    if rows == [] then 0
    else if ProcessError(rows[0], grades, memberIds).Some? then 0
    else 1 + FirstFailure(rows[1..], grades, memberIds)
  }

  // ---------------------------------------------------------------------
  // Step

  /** Between the two states no member, except those numbered in `touched`,
      changed grade. */
  twostate predicate GradesKept(members: map<int, Member>, touched: set<int>)
    reads members.Values
  {
    forall key :: key in members && key !in touched ==> members[key].memberGrade == old(members[key].memberGrade)
  }

  /** Runs the processor over the rows in order until one fails. */
  method ProcessRows(rows: seq<MemberPaymentDto>, grades: map<int, MemberGrade>, members: map<int, Member>)
    returns (r: Result<seq<Member>, BatchError>)
    requires IsMemberTable(members) && IsGradeTable(grades)
    requires forall i, j :: 0 <= i < j < |rows| ==> rows[i].memberNo < rows[j].memberNo
    modifies members.Values
    ensures var k := FirstFailure(rows, grades, members.Keys);
            && (r.Failure? <==> k < |rows|)
            && (r.Failure? ==> r.error == ProcessError(rows[k], grades, members.Keys).value)
            && (forall j :: 0 <= j < k ==> members[rows[j].memberNo].memberGrade == grades[GradeForAmount(rows[j].totalAmount)])
            && (forall j :: 0 <= j < k ==> members[rows[j].memberNo].memberGrade.id == GradeForAmount(rows[j].totalAmount))
            && GradesKept(members, set j | 0 <= j < k :: rows[j].memberNo)
            && (r.Success? ==> |r.value| == |rows| && forall j :: 0 <= j < |rows| ==> r.value[j] == members[rows[j].memberNo])
  {
    ghost var k := FirstFailure(rows, grades, members.Keys);
    ghost var touched: set<int> := {};
    var out: seq<Member> := [];
    var i := 0;
    while i < |rows|
      invariant 0 <= i <= k
      invariant |out| == i
      invariant touched == set j | 0 <= j < i :: rows[j].memberNo
      invariant forall j :: 0 <= j < i ==> rows[j].memberNo in members
      invariant forall j :: 0 <= j < i ==> out[j] == members[rows[j].memberNo]
      invariant forall j :: 0 <= j < i ==> members[rows[j].memberNo].memberGrade == grades[GradeForAmount(rows[j].totalAmount)]
      invariant GradesKept(members, touched)
    {
      var processed := UpdateGradeProcessor(rows[i], grades, members);
      if processed.Failure? {
        return Failure(processed.error);
      }
      assert forall j :: 0 <= j < i ==> rows[j].memberNo != rows[i].memberNo;
      out := out + [processed.value];
      touched := touched + {rows[i].memberNo};
      i := i + 1;
    }
    r := Success(out);
  }

  /** The step: every reader row goes through the processor in order; the
      first failure ends the step with that error. Rows before it have their
      member's grade set; no other member changes. On success the writer
      receives every updated member once, in reader order, in chunks of
      CHUNK_SIZE. */
  method MemberGradeUpdateStep(orders: seq<Order>, grades: map<int, MemberGrade>, members: map<int, Member>)
    returns (r: Result<seq<seq<Member>>, BatchError>)
    requires IsMemberTable(members) && IsGradeTable(grades)
    modifies members.Values
    ensures var rows := MemberPayments(orders);
            var k := FirstFailure(rows, grades, members.Keys);
            && (r.Failure? <==> k < |rows|)
            && (r.Failure? ==> r.error == ProcessError(rows[k], grades, members.Keys).value)
            && (forall j :: 0 <= j < k ==> members[rows[j].memberNo].memberGrade == grades[GradeForAmount(rows[j].totalAmount)])
            && (forall j :: 0 <= j < k ==> members[rows[j].memberNo].memberGrade.id == GradeForAmount(rows[j].totalAmount))
            && GradesKept(members, set j | 0 <= j < k :: rows[j].memberNo)
            && (r.Success? ==>
                  var out := Flatten(r.value);
                  && |out| == |rows|
                  && (forall j :: 0 <= j < |rows| ==> out[j] == members[rows[j].memberNo])
                  && (forall c :: 0 <= c < |r.value| ==> 0 < |r.value[c]| <= CHUNK_SIZE))
  {
    var rows := MemberPayments(orders);
    var processed := ProcessRows(rows, grades, members);
    if processed.Failure? {
      return Failure(processed.error);
    }
    r := Success(Chunks(processed.value, CHUNK_SIZE));
  }
}
