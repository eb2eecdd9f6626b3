# marketgg-batch: grade and coupon batch logic

The model covers the business rules of the batch server of the market
application: the monthly job that resets every member's grade, recomputes it
from a month of orders and grants the GVIP and VIP coupons, and the daily
scheduler that grants the birthday coupon. Tables are values
(`seq<Coupon>`, `map<int, MemberGrade>`, `map<int, Member>` keyed by id for
`findById`, `seq<Member>` in table order for the readers, `seq<Pk>` for the keys of
the `given_coupons` rows in the order they were added). The two JDBC
writers insert, so each grant adds a row. The scheduler's
`givenCouponRepository.save` and the GVIP step's JPA writer merge instead,
because the grant's key is assigned by its constructor: a key already in
the table leaves it as it is, and any other key adds a row at the end. `Member` is a class whose only mutable
field is its grade, since `updateGrade` changes it in place; the other
entities are datatypes. A step is its reader's rows, each passed through
the processor, the results cut into chunks of the step's `CHUNK_SIZE` for the
writer. A processor's exception is a `Failure` of a `Result`, and it ends the
step. The current date is a parameter.

Modules, one per source file or concern:

- `Wrappers`: `Option`, `Result`.
- `Chunking`: chunk partitioning and the step configuration record.
- `SqlOrder`: an `ORDER BY` on a unique integer key, as a strictly increasing sequence.
- `Dates`: `LocalDate` arithmetic (`minusMonths`, `plusMonths`, `withDayOfMonth`) and the `MM-dd` and ISO date texts, with parsers that read them back.
- `CouponNames`, `Exceptions`: the coupon-name table and the three errors.
- `CouponRepository`, `Members`, `MemberRepository`, `GivenCoupons`: entities and repository queries.
- `JobParameter`: the shared job-scoped parameter holder.
- `GradeMembers`: the JDBC query "member numbers of one grade, ascending".
- `UpdateMemberGradeStep`, `ResetMemberGradeStep`, `GiveCouponMemberStep`, `GiveCouponVipMemberStep`, `GiveCouponGVipMemberStep`: the steps.
- `CouponIssuanceScheduler`: the two scheduled methods.

The reader of the grade update step filters on the constants 2022-08-01 and
2022-08-31 written into the reader, not on the `startDate`/`endDate` job
parameters the scheduler passes; the model keeps this. Its `created_at <= '2022-08-31'`
compares a datetime with a date. The model compares with that day's
midnight, so of 31 August only the instant 00:00:00 is inside the window.

## Model

| member | source | states |
|---|---|---|
| Chunking.Chunks | src/main/java/com/nhnacademy/marketgg/batch/batchstep/UpdateMemberGradeStep.java:60 | The chunks, concatenated, are the items in order. Every chunk is non-empty and at most the chunk size. All but the last are full. The number of chunks is the item count divided by the size, rounded up. |
| Chunking.LastChunkLength | src/main/java/com/nhnacademy/marketgg/batch/batchstep/ResetMemberGradeStep.java:47 | The last chunk holds the remainder of the items after the full chunks. |
| Chunking.FlattenAppend | src/main/java/com/nhnacademy/marketgg/batch/batchstep/GiveCouponMemberStep.java:72 | Concatenating two runs of chunks concatenates their items. |
| SqlOrder.SortedDistinct | src/main/java/com/nhnacademy/marketgg/batch/batchstep/GiveCouponMemberStep.java:132-133 | An ascending sort on a key column: the result is strictly increasing and holds exactly the input's keys. |
| SqlOrder.Insert | src/main/java/com/nhnacademy/marketgg/batch/batchstep/UpdateMemberGradeStep.java:98-99 | Inserting a key into a strictly increasing sequence keeps it strictly increasing, and adds exactly that key. |
| SqlOrder.StrictlyIncreasingUnique | src/main/java/com/nhnacademy/marketgg/batch/batchstep/UpdateMemberGradeStep.java:98-99 | Two strictly increasing sequences with the same elements are equal, so a sorted result is determined by its keys. |
| SqlOrder.SortedDistinctDependsOnlyOnElements | src/main/java/com/nhnacademy/marketgg/batch/batchstep/GiveCouponVIPMemberStep.java:94-95 | The sorted rows depend only on which keys are stored, not on storage order or duplicates. |
| Dates.LengthOfMonth | src/main/java/com/nhnacademy/marketgg/batch/scheduler/CouponIssuanceScheduler.java:85-87 | A month has 28 to 31 days, and 29 exactly for February of a leap year. |
| Dates.IsLeapYear | src/main/java/com/nhnacademy/marketgg/batch/scheduler/CouponIssuanceScheduler.java:85 | Defines the Gregorian leap year, divisible by 4 and not by 100 unless by 400, which decides February's length when `minusMonths` clamps the day. |
| Dates.PlusMonths | src/main/java/com/nhnacademy/marketgg/batch/scheduler/CouponIssuanceScheduler.java:85 | Moves the month count by the amount. Keeps the day, or clamps it to the last day of the target month when that month is shorter. |
| Dates.MinusMonths | src/main/java/com/nhnacademy/marketgg/batch/scheduler/CouponIssuanceScheduler.java:85 | Moves the month count back by the amount. |
| Dates.WithDayOfMonth | src/main/java/com/nhnacademy/marketgg/batch/scheduler/CouponIssuanceScheduler.java:86-87 | Same year and month, the given day. |
| Dates.MonthDay | src/main/java/com/nhnacademy/marketgg/batch/scheduler/CouponIssuanceScheduler.java:63 | The `MM-dd` text is five characters with a dash in the middle. |
| Dates.MonthDayRoundTrip | src/main/java/com/nhnacademy/marketgg/batch/scheduler/CouponIssuanceScheduler.java:63 | Reading a date's `MM-dd` text back gives its month and day. |
| Dates.IsoYearRoundTrip | src/main/java/com/nhnacademy/marketgg/batch/scheduler/CouponIssuanceScheduler.java:91-92 | Reading back the ISO year text (four digits at least, signed outside 0..9999) gives the year. |
| Dates.IsoDateRoundTrip | src/main/java/com/nhnacademy/marketgg/batch/scheduler/CouponIssuanceScheduler.java:91-92 | Reading back a date's ISO `yyyy-MM-dd` text gives the date, so the text names one date. |
| Dates.Digits | src/main/java/com/nhnacademy/marketgg/batch/scheduler/CouponIssuanceScheduler.java:91-92 | Decimal digits of a natural number: one for n < 10, at most two below 100, at most four below 10000. |
| Dates.ParsePad | src/main/java/com/nhnacademy/marketgg/batch/scheduler/CouponIssuanceScheduler.java:63 | Reading a zero-padded number back gives the number. |
| Dates.ParseDigits | src/main/java/com/nhnacademy/marketgg/batch/scheduler/CouponIssuanceScheduler.java:91-92 | Reading a number's digits back gives the number. |
| Dates.ParseLeadingZeros | src/main/java/com/nhnacademy/marketgg/batch/scheduler/CouponIssuanceScheduler.java:91-92 | Leading zeros do not change the value read. |
| Dates.ParseZeros | src/main/java/com/nhnacademy/marketgg/batch/scheduler/CouponIssuanceScheduler.java:91-92 | A run of zeros reads as 0. |
| Dates.IsoYear | src/main/java/com/nhnacademy/marketgg/batch/scheduler/CouponIssuanceScheduler.java:91-92 | Defines the year part of ISO_DATE: at least four digits, zero-padded, with "+" above 9999 and "-" below 0. IsoYearRoundTrip states its meaning. |
| Dates.IsoDate | src/main/java/com/nhnacademy/marketgg/batch/scheduler/CouponIssuanceScheduler.java:91-92 | Defines the ISO_DATE text `yyyy-MM-dd` of a date. IsoDateRoundTrip states its meaning. |
| CouponNames.DisplayNames | src/main/java/com/nhnacademy/marketgg/batch/domain/constant/CouponName.java:11-13 | GVIP, VIP and BIRTHDAY display as "GVIP 쿠폰", "VIP 쿠폰" and "생일 쿠폰". |
| CouponNames.DisplayNameInjective | src/main/java/com/nhnacademy/marketgg/batch/domain/constant/CouponName.java:21-23 | Different names display differently. |
| CouponNames.DisplayName | src/main/java/com/nhnacademy/marketgg/batch/domain/constant/CouponName.java:9-23 | Defines `couponName()`, each constant's display string. DisplayNames and DisplayNameInjective state its values. |
| Exceptions.Message | src/main/java/com/nhnacademy/marketgg/batch/exception/CouponNotFoundException.java:10-19 | Defines the message each of the three exceptions carries. |
| CouponRepository.FindCouponByName | src/main/java/com/nhnacademy/marketgg/batch/repository/coupon/CouponRepositoryImpl.java:16-25 | Empty exactly when no coupon has that name. Otherwise a stored coupon with that exact name, whose id is the greatest among them. |
| CouponRepository.FindCouponByNameIgnoresStorageOrder | src/main/java/com/nhnacademy/marketgg/batch/repository/coupon/CouponRepositoryImpl.java:21-22 | With unique ids, the same coupons in any order give the same answer. |
| CouponRepository.FindCouponByNameSingleMatch | src/main/java/com/nhnacademy/marketgg/batch/repository/coupon/CouponRepositoryImpl.java:19-24 | With exactly one coupon of the name, that coupon is returned. |
| Members.Member.constructor | src/main/java/com/nhnacademy/marketgg/batch/domain/entity/Member.java:24-56 | Every field holds its given value. Everything except the grade is fixed for the object's life. |
| Members.Member.UpdateGrade | src/main/java/com/nhnacademy/marketgg/batch/domain/entity/Member.java:58-60 | After the call the grade is the argument. Every other field is immutable. The new state depends only on the argument, so a repeated call changes nothing and the last of two calls wins. |
| Members.MemberTableDistinct | src/main/java/com/nhnacademy/marketgg/batch/domain/entity/Member.java:24-27 | In an id-keyed member table, two keys share an object only if they are the same key. |
| Members.FindMemberById | src/main/java/com/nhnacademy/marketgg/batch/batchstep/UpdateMemberGradeStep.java:135-136 | Found exactly when the id is a key. The member found has that id and is in the table. |
| Members.FindGradeById | src/main/java/com/nhnacademy/marketgg/batch/batchstep/UpdateMemberGradeStep.java:133-134 | In an id-keyed grade table: found exactly when the id is a key, and then it is that key's grade, whose id is the requested id. |
| MemberRepository.FindAllMembersByBirthday | src/main/java/com/nhnacademy/marketgg/batch/repository/member/MemberRepositoryImpl.java:19-28 | Every member returned is stored and has a birth date whose `%m-%d` is the key. Every such member is returned. The result is a sub-multiset of the table. |
| MemberRepository.HasBirthday | src/main/java/com/nhnacademy/marketgg/batch/repository/member/MemberRepositoryImpl.java:22-26 | Defines the query's filter: the birth date is set and its `%m-%d` text equals the key. A null birth date matches nothing. |
| MemberRepository.BirthYearIgnored | src/main/java/com/nhnacademy/marketgg/batch/repository/member/MemberRepositoryImpl.java:22-23 | Dates with the same month and day give the same key, whatever the year. |
| MemberRepository.MatchingKeyNamesTheDay | src/main/java/com/nhnacademy/marketgg/batch/repository/member/MemberRepositoryImpl.java:22-23 | A key that a date matches reads back as that date's month and day. |
| MemberRepository.UnpaddedKeyMatchesNobody | src/main/java/com/nhnacademy/marketgg/batch/repository/member/MemberRepositoryImpl.java:23 | A key that is not five characters long, such as "2-5", matches nobody. |
| MemberRepository.BirthdayKeyOfDay | src/main/java/com/nhnacademy/marketgg/batch/repository/member/MemberRepositoryImpl.java:22-26 | A member matches today's key exactly when they were born on today's month and day. |
| GivenCoupons.NewGivenCoupon | src/main/java/com/nhnacademy/marketgg/batch/domain/entity/GivenCoupon.java:67-72 | The key is (coupon id, member id), and the grant holds exactly the given coupon and member. |
| GivenCoupons.SameKeyIffSameIds | src/main/java/com/nhnacademy/marketgg/batch/domain/entity/GivenCoupon.java:48-65 | Two grants have equal keys exactly when their coupon ids and member ids are equal. |
| GivenCoupons.DtoRow | src/main/java/com/nhnacademy/marketgg/batch/batchstep/GiveCouponMemberStep.java:186-189 | The row a DTO is inserted as: `coupon_no` is its coupon number and `member_no` its member number. |
| GivenCoupons.EntityRow | src/main/java/com/nhnacademy/marketgg/batch/domain/entity/GivenCoupon.java:26-27 | The row a grant entity is stored under is its embedded key. For a constructed grant, that is (coupon id, member id). |
| GivenCoupons.Rows | src/main/java/com/nhnacademy/marketgg/batch/batchstep/GiveCouponMemberStep.java:186-188 | One table row per item, in order. |
| GivenCoupons.Save | src/main/java/com/nhnacademy/marketgg/batch/scheduler/CouponIssuanceScheduler.java:69 | Saving a grant whose key is already stored leaves the table as it was. Any other grant appends its key. The table then holds exactly the old keys plus the grant's, and a table without repeated keys stays so. |
| GivenCoupons.Grants | src/main/java/com/nhnacademy/marketgg/batch/scheduler/CouponIssuanceScheduler.java:66-68 | One grant per member, in the members' order, each built from the coupon and that member. |
| GivenCoupons.SaveAll | src/main/java/com/nhnacademy/marketgg/batch/scheduler/CouponIssuanceScheduler.java:66-70 | Saving the grants in turn never removes or reorders a row. It adds at most one row per grant. |
| GivenCoupons.SaveAllKeys | src/main/java/com/nhnacademy/marketgg/batch/scheduler/CouponIssuanceScheduler.java:66-70 | After saving, the table holds exactly the old keys and the grants' keys. Every row it gained is a grant's key that was not stored before. |
| GivenCoupons.SaveAllDistinct | src/main/java/com/nhnacademy/marketgg/batch/scheduler/CouponIssuanceScheduler.java:66-70 | Saving never doubles a key: a table without repeated keys stays without them. |
| GivenCoupons.SaveAllFresh | src/main/java/com/nhnacademy/marketgg/batch/scheduler/CouponIssuanceScheduler.java:66-70 | When the grants' keys are distinct and none is stored yet, saving appends exactly their keys, in order. |
| GivenCoupons.SaveAllAppend | src/main/java/com/nhnacademy/marketgg/batch/batchstep/GiveCouponGVIPMemberStep.java:94-99 | Saving one run of grants and then another is the same as saving both runs as one. |
| GivenCoupons.SaveChunks | src/main/java/com/nhnacademy/marketgg/batch/batchstep/GiveCouponGVIPMemberStep.java:94-99 | Merging the chunks in turn, as the JPA writer does, gives the same table as saving their grants one by one. |
| GivenCoupons.WriteChunks | src/main/java/com/nhnacademy/marketgg/batch/batchstep/GiveCouponMemberStep.java:180-191 | Writing the chunks in turn appends one row per item of every chunk, in order, after the existing rows. |
| JobParameter.BatchJobParameter.constructor | src/main/java/com/nhnacademy/marketgg/batch/config/BatchJobParameter.java:14-26 | The four injected values are stored as given. |
| JobParameter.BatchJobParameter.SetGradeNo | src/main/java/com/nhnacademy/marketgg/batch/config/BatchJobParameter.java:22-23 | Sets the grade number and leaves the other three fields alone. |
| JobParameter.BatchJobParameter.SetCouponName | src/main/java/com/nhnacademy/marketgg/batch/config/BatchJobParameter.java:25-26 | Sets the coupon name and leaves the other three fields alone. |
| GradeMembers.IdsWithGrade | src/main/java/com/nhnacademy/marketgg/batch/batchstep/GiveCouponMemberStep.java:137-139 | Exactly the ids of the members holding the grade. |
| GradeMembers.SelectByGrade | src/main/java/com/nhnacademy/marketgg/batch/batchstep/GiveCouponMemberStep.java:109-143 | A null grade matches no row. Otherwise each member number holding the grade appears once, in ascending order, and only those appear. |
| GradeMembers.SelectedGrants | src/main/java/com/nhnacademy/marketgg/batch/batchstep/GiveCouponVIPMemberStep.java:116-118 | Granting one coupon to each selected row gives it once to every member of the grade, in ascending member order, and to no one else. |
| UpdateMemberGradeStep.ConfigSizes | src/main/java/com/nhnacademy/marketgg/batch/batchstep/UpdateMemberGradeStep.java:44 | Chunk size and page size are both 5, and the step is restartable after completion. |
| UpdateMemberGradeStep.InReadWindow | src/main/java/com/nhnacademy/marketgg/batch/batchstep/UpdateMemberGradeStep.java:78-80 | An order is inside the reader's window exactly when it was created in August 2022, on days 1 to 30 or at midnight starting 31 August. |
| UpdateMemberGradeStep.WindowOrders | src/main/java/com/nhnacademy/marketgg/batch/batchstep/UpdateMemberGradeStep.java:105 | Exactly the orders whose creation time lies in the hard-coded August 2022 window. |
| UpdateMemberGradeStep.WindowOrdersCounts | src/main/java/com/nhnacademy/marketgg/batch/batchstep/UpdateMemberGradeStep.java:105 | Each order inside the window is kept as many times as it is stored, and every other order is dropped, so the sums run over exactly the stored window orders. |
| UpdateMemberGradeStep.OrderMemberNos | src/main/java/com/nhnacademy/marketgg/batch/batchstep/UpdateMemberGradeStep.java:103-106 | Exactly the member numbers that occur in the orders. |
| UpdateMemberGradeStep.TotalAmount | src/main/java/com/nhnacademy/marketgg/batch/batchstep/UpdateMemberGradeStep.java:103 | The `sum(total_amount)` of one member: 0 when the member has no order, and never negative when no amount is. |
| UpdateMemberGradeStep.MemberPayments | src/main/java/com/nhnacademy/marketgg/batch/batchstep/UpdateMemberGradeStep.java:76-110 | Rows are in strictly ascending member order, so no member has two rows. Each row carries the sum of that member's windowed order amounts. |
| UpdateMemberGradeStep.MemberPaymentsCoverage | src/main/java/com/nhnacademy/marketgg/batch/batchstep/UpdateMemberGradeStep.java:103-106 | Every row's member has an order in the window, and every member with an order in the window has a row. |
| UpdateMemberGradeStep.GradeForAmount | src/main/java/com/nhnacademy/marketgg/batch/batchstep/UpdateMemberGradeStep.java:123-132 | The result is one of the three grades, and the amount qualifies for it (VIP from 300,000, GVIP from 500,000). It is the best grade the amount qualifies for. |
| UpdateMemberGradeStep.GradeBoundaries | src/main/java/com/nhnacademy/marketgg/batch/batchstep/UpdateMemberGradeStep.java:126-132 | 299,999 gives MEMBER, 300,000 and 499,999 give VIP, 500,000 gives GVIP. |
| UpdateMemberGradeStep.GradeMonotone | src/main/java/com/nhnacademy/marketgg/batch/batchstep/UpdateMemberGradeStep.java:126-132 | A larger amount never gives a larger grade id. |
| UpdateMemberGradeStep.ProcessError | src/main/java/com/nhnacademy/marketgg/batch/batchstep/UpdateMemberGradeStep.java:133-136 | A row fails exactly when its tier's grade row or its member is missing. It fails with MemberNotFound exactly when the grade row is present and the member is missing, so a missing grade row wins. |
| UpdateMemberGradeStep.UpdateGradeProcessor | src/main/java/com/nhnacademy/marketgg/batch/batchstep/UpdateMemberGradeStep.java:120-140 | A missing grade row fails with MemberGradeNotFound, even when the member is missing too. Otherwise a missing member fails with MemberNotFound. In both cases nothing changes. On success it returns the member with that number. That member now holds the grade row for the amount, whose id is the tier's grade id, and no other member changes. |
| UpdateMemberGradeStep.FirstFailure | src/main/java/com/nhnacademy/marketgg/batch/batchstep/UpdateMemberGradeStep.java:133-136 | Every row before the returned position processes without error. The row at it, if there is one, fails. |
| UpdateMemberGradeStep.ProcessRows | src/main/java/com/nhnacademy/marketgg/batch/batchstep/UpdateMemberGradeStep.java:58-66 | Rows are processed in order up to the first failing row, whose error is the result. Each processed row's member holds the grade row for its amount, with the tier's grade id. Members of unprocessed rows keep their grades. On success there is one output per row, the row's member. |
| UpdateMemberGradeStep.MemberGradeUpdateStep | src/main/java/com/nhnacademy/marketgg/batch/batchstep/UpdateMemberGradeStep.java:57-154 | The whole step: the rows of ProcessRows, with the reader's rows as input. On success the writer receives every updated member once, in ascending member order, in chunks of at most 5. |
| ResetMemberGradeStep.ResetGradeProcessor | src/main/java/com/nhnacademy/marketgg/batch/batchstep/ResetMemberGradeStep.java:82-90 | Fails with MemberGradeNotFound exactly when grade 3 is missing, and then leaves the member alone. Otherwise it returns the same object, now holding the grade row with id 3. |
| ResetMemberGradeStep.MemberGradeResetStep | src/main/java/com/nhnacademy/marketgg/batch/batchstep/ResetMemberGradeStep.java:45-104 | Fails exactly when there is a member and grade 3 is missing; then no member changes. Otherwise every member ends holding the grade row with id 3, whatever it had, so running it twice gives what once does. The writer receives all members in table order, none filtered, in chunks of at most 1000. |
| GiveCouponMemberStep.GVipGivenCouponMemberStep | src/main/java/com/nhnacademy/marketgg/batch/batchstep/GiveCouponMemberStep.java:66-78 | The shared parameters now hold grade 1 and the GVIP coupon name. The step has chunk and page size 100 and is restartable. |
| GiveCouponMemberStep.VipGivenCouponMemberStep | src/main/java/com/nhnacademy/marketgg/batch/batchstep/GiveCouponMemberStep.java:87-99 | The shared parameters now hold grade 2 and the VIP coupon name, with the same step settings. |
| GiveCouponMemberStep.Apply | src/main/java/com/nhnacademy/marketgg/batch/batchstep/GiveCouponMemberStep.java:168-171 | The member number is copied and the coupon number is the delegate's fixed coupon id. |
| GiveCouponMemberStep.ApplyComposite | src/main/java/com/nhnacademy/marketgg/batch/batchstep/GiveCouponMemberStep.java:159-164 | Defines the composite processor with its one delegate: the item goes through that delegate, and its output is the result. |
| GiveCouponMemberStep.GivenCouponProcessor | src/main/java/com/nhnacademy/marketgg/batch/batchstep/GiveCouponMemberStep.java:152-166 | Fails with CouponNotFound exactly when no coupon has the display name. Otherwise there is exactly one delegate, for the looked-up coupon's id. |
| GiveCouponMemberStep.ProcessAll | src/main/java/com/nhnacademy/marketgg/batch/batchstep/GiveCouponMemberStep.java:159-165 | One output per input row, each the composite's output for that row. |
| GiveCouponMemberStep.GradeCouponStep | src/main/java/com/nhnacademy/marketgg/batch/batchstep/GiveCouponMemberStep.java:109-171 | With the parameters as they stand at run time: fails with CouponNotFound exactly when the coupon is missing. Otherwise every grant is of that coupon. Members are strictly ascending, so no one gets two grants. Every member of the parameter's grade gets a grant and no one else does, and no one does when the grade is null. Chunks hold at most 100. |
| GiveCouponMemberStep.GiveGVipCoupons | src/main/java/com/nhnacademy/marketgg/batch/batchstep/GiveCouponMemberStep.java:66-191 | Building the GVIP step and running it appends, after the existing rows, one row of the GVIP coupon per grade-1 member, in ascending member order. It fails exactly when that coupon is missing. Afterwards the shared parameters hold grade 1 and the GVIP name, and their dates are unchanged. |
| GiveCouponMemberStep.GiveVipCoupons | src/main/java/com/nhnacademy/marketgg/batch/batchstep/GiveCouponMemberStep.java:87-191 | The same for the VIP step: the VIP coupon, once each, to every grade-2 member. Afterwards the shared parameters hold grade 2 and the VIP name, and their dates are unchanged. |
| GiveCouponVipMemberStep.VipGivenCouponProcessor | src/main/java/com/nhnacademy/marketgg/batch/batchstep/GiveCouponVIPMemberStep.java:114-119 | Fails with CouponNotFound exactly when the VIP coupon is missing. Otherwise it gives that coupon's id. |
| GiveCouponVipMemberStep.VipCouponStep | src/main/java/com/nhnacademy/marketgg/batch/batchstep/GiveCouponVIPMemberStep.java:53-138 | Fails exactly when the VIP coupon is missing. Otherwise every grade-2 member gets exactly one grant of the VIP coupon, in ascending member order, and no one else gets one. Chunks hold at most 100. |
| GiveCouponVipMemberStep.SameAsParameterisedVipStep | src/main/java/com/nhnacademy/marketgg/batch/batchstep/GiveCouponVIPMemberStep.java:72-119 | Once the shared parameters hold grade 2 and VIP, this step and the parameterised VIP step hand their writers the same chunks. |
| GiveCouponGVipMemberStep.GVipMemberReader | src/main/java/com/nhnacademy/marketgg/batch/batchstep/GiveCouponGVIPMemberStep.java:63-71 | Every member returned is stored and has grade 1, and every stored grade-1 member is returned. No order is claimed. |
| GiveCouponGVipMemberStep.GVipMemberReaderCounts | src/main/java/com/nhnacademy/marketgg/batch/batchstep/GiveCouponGVIPMemberStep.java:63-71 | The result is a sub-multiset of the table. Every grade-1 member is returned as many times as it is stored and every other member not at all, so a table without duplicate rows gives each grade-1 member once. |
| GiveCouponGVipMemberStep.GVipGivenCouponProcessor | src/main/java/com/nhnacademy/marketgg/batch/batchstep/GiveCouponGVIPMemberStep.java:80-85 | Fails with CouponNotFound exactly when the GVIP coupon is missing. Otherwise it gives the coupon the name lookup returns, the stored "GVIP 쿠폰" with the greatest id. |
| GiveCouponGVipMemberStep.GVipCouponStep | src/main/java/com/nhnacademy/marketgg/batch/batchstep/GiveCouponGVIPMemberStep.java:44-85 | Fails exactly when the GVIP coupon is missing. Otherwise the writer receives exactly one new grant per member read, in reader order, each pairing the looked-up coupon with that member under key (coupon id, member id). So every grant is of a stored grade-1 member, and every grade-1 member has one. Chunks hold at most 5. |
| GiveCouponGVipMemberStep.GVipWriterGrantsEveryGVipMember | src/main/java/com/nhnacademy/marketgg/batch/batchstep/GiveCouponGVIPMemberStep.java:94-99 | Merging such grants keeps the existing rows in place. Every grade-1 member then holds the coupon. Every new row is of that coupon for a grade-1 member, and no key is doubled. A member who already held the coupon adds no row. |
| GiveCouponGVipMemberStep.GVipWriterAppendsFreshGrants | src/main/java/com/nhnacademy/marketgg/batch/batchstep/GiveCouponGVIPMemberStep.java:94-99 | When no grant's key is stored yet and the keys are distinct, the table grows by exactly one row per grant. The new rows grant the coupon to exactly the grade-1 members. |
| CouponIssuanceScheduler.ScheduleBirthdayCoupon | src/main/java/com/nhnacademy/marketgg/batch/scheduler/CouponIssuanceScheduler.java:55-72 | A missing birthday coupon fails with CouponNotFound before anything is saved. Otherwise a grant (coupon id, member id) is saved for each member the `MM-dd` query returns, in query order. The result is the table that saving those grants one by one leaves: the old rows stay in place and no key is doubled. Every member born on today's month and day then holds the coupon, and every new row is for such a member. A grant from an earlier year adds no row. |
| CouponIssuanceScheduler.SaveBirthdayGrants | src/main/java/com/nhnacademy/marketgg/batch/scheduler/CouponIssuanceScheduler.java:66-70 | The loop saves one new grant per member, in turn, and leaves the table that saving those grants one by one gives. |
| CouponIssuanceScheduler.BirthdayMembersHoldCoupon | src/main/java/com/nhnacademy/marketgg/batch/scheduler/CouponIssuanceScheduler.java:63-70 | After the loop, every member born on today's month and day, in any year, holds the coupon. |
| CouponIssuanceScheduler.BirthdayRowsAreBirthdayMembers | src/main/java/com/nhnacademy/marketgg/batch/scheduler/CouponIssuanceScheduler.java:63-70 | Every row the loop adds is the birthday coupon's, for a stored member born on today's month and day. |
| CouponIssuanceScheduler.FreshBirthdayGrantsAppend | src/main/java/com/nhnacademy/marketgg/batch/scheduler/CouponIssuanceScheduler.java:64-70 | When no member returned holds the coupon yet and their ids differ, the loop appends exactly one row per member, in query order. |
| CouponIssuanceScheduler.MonthIndexOrdersDates | src/main/java/com/nhnacademy/marketgg/batch/scheduler/CouponIssuanceScheduler.java:85-87 | An earlier month number means an earlier date, and equal month numbers mean the same year and month. |
| CouponIssuanceScheduler.MonthlyWindow | src/main/java/com/nhnacademy/marketgg/batch/scheduler/CouponIssuanceScheduler.java:85-87 | The start is day 1 of the month before today's, and the end is day 1 of today's month. The start is strictly earlier, and one month after the start is the end. |
| CouponIssuanceScheduler.JanuaryWindow | src/main/java/com/nhnacademy/marketgg/batch/scheduler/CouponIssuanceScheduler.java:85-86 | In January the window starts on 1 December of the year before. |
| CouponIssuanceScheduler.GradeJobParameters | src/main/java/com/nhnacademy/marketgg/batch/scheduler/CouponIssuanceScheduler.java:89-93 | Exactly the keys "startDate" and "endDate", whose ISO texts read back as the window's two dates. |
| CouponIssuanceScheduler.IsCaught | src/main/java/com/nhnacademy/marketgg/batch/scheduler/CouponIssuanceScheduler.java:97-102 | Defines the multi-catch: exactly the four checked launcher exceptions are caught. |
| CouponIssuanceScheduler.ScheduleMemberGradeCoupon | src/main/java/com/nhnacademy/marketgg/batch/scheduler/CouponIssuanceScheduler.java:80-105 | The job is launched with those parameters. The method returns normally when the launch succeeds or throws one of the four checked launcher exceptions. Any other exception leaves the method. |

## Left out

- Spring Batch itself: chunk transactions, commit and rollback, restart bookkeeping, the effect of `allowStartIfComplete`, paging SQL and bean scopes. A failing step ends with its error. In-memory grade changes already made stay, because rollback is not modelled.
- When a coupon lookup runs: in the source it happens when the processor bean is created, which can be before any row is read or at application start. In the model a missing coupon fails the step, whether or not any row is read.
- CouponRepository.FindCouponByName: names are compared as exact character sequences. The database compares them under the column's collation, which can ignore case and trailing spaces, and that is not modelled.
- The grade table is taken to map each key to the grade row with that id, as a primary-key lookup does. Nothing else about the `member_grades` table is modelled.
- The job that chains the steps (`BatchJobConfig`), `MemberGradeRepository`, `MemberRepository`, `GivenCouponRepository` and `JobLauncher` are not part of this model. The `findById` queries are map lookups, `save` is a merge by key, and the launcher's result is a parameter.
- GiveCouponMemberStep.GradeCouponStep: requires the shared coupon name to be set. The source throws a NullPointerException when it is not, and that is not modelled.
- Duplicate bean names across the three grant-step classes, and which definition the container keeps, are not modelled. Each class is modelled on its own.
- The order in which the two parameterised builders run is not modelled. The grant methods build one step and run it at once.
- `@Scheduled`/`@Async` triggering and concurrency, and logging.
- The clock: `LocalDateTime.now()` and `LocalDate.now()` are parameters. The monthly scheduler's two `LocalDate.now()` reads are one date, so a run across midnight is not modelled.
- `created_at` columns written with `now()`, `Coupon.discountAmount` (floating point, never read) and the coupon fields nothing reads.
- The `orders` table is not part of this model: its rows have only the three columns the reader uses, and `created_at` is taken to be a datetime.
- Java's `long` range and `LocalDate`'s year limits: integers are unbounded.
- Member rows carry the fields of the entity. The model does not check the uniqueness constraints the database enforces. In particular, a duplicate `given_coupons` key makes an insert by the two JDBC writers fail. The model's JDBC writer appends the row instead.
- GiveCouponMemberStep.GiveGVipCoupons: when a grade-1 member already holds the GVIP coupon, the source's insert fails and the model's run succeeds with a repeated key, so its contract matches the source only for runs in which no such member holds it yet.
- GiveCouponMemberStep.GiveVipCoupons: the same for grade-2 members and the VIP coupon.
- The two merges (the scheduler's `save` and the GVIP JPA writer) are modelled on the key columns only. A merge of a stored key also rewrites that row's other columns, such as `created_at`, and that is not modelled.
- Exception classes are the three `BatchError` values with their messages. Stack traces and the types of the launcher's exceptions are left out.
