/** The payment flow (server/routes/payment.js): `POST /create-order` stores a
    pending order for a course, `POST /verify` checks the gateway's signature,
    completes the order, enrolls the caller and adds them to the course roster.

    The gateway call `razorpay.orders.create` is the parameter `reply`, the
    HMAC-SHA-256 digest is the function parameter `sign(secret, message)`, the
    `RAZORPAY_SECRET` environment variable is `secretEnv`, and the ids and
    timestamps the database assigns are the parameters `enrollmentId` and `now`. */
module Payment {
  import opened Base
  import opened Seqs
  import opened CourseModel
  import opened EnrollmentModel
  import opened OrderModel
  import opened Store

  const Currency := "INR"
  const DefaultSecret := "your_razorpay_secret_key_here"

  /** The gateway's answer to `orders.create`: the created order's id (the
      gateway echoes amount, currency and receipt), or a refusal, which the
      handler's `catch` turns into a 500. */
  datatype GatewayReply = Created(orderRef: string) | Refused

  /** The new database, the HTTP status, and the saved order or enrollment. */
  datatype CreateOrderOutcome = CreateOrderOutcome(tables: Tables, status: int, order: Option<Order>)
  datatype VerifyOutcome = VerifyOutcome(tables: Tables, status: int, enrollment: Option<Enrollment>)

  /** The receipt the gateway is given: `rcpt_`, the user id, `_`, the course id. */
  function Receipt(userId: Id, courseId: Id): (r: string)
    ensures |r| == |userId| + |courseId| + 6
    ensures r[..5] == "rcpt_" && r[5..5 + |userId|] == userId
    ensures r[5 + |userId|] == '_' && r[6 + |userId|..] == courseId
  {
    "rcpt_" + userId + "_" + courseId
  }

  /** The message the gateway signs: order id, a bar, payment id. */
  function SignedMessage(orderId: string, paymentId: string): string {
    orderId + "|" + paymentId
  }

  function Secret(secretEnv: Option<string>): string {
    OrElse(secretEnv, DefaultSecret)
  }

  /** `Order.findOne({orderid})`: the first stored order with that gateway id
      (nothing makes `orderid` unique). */
  function OrderIndex(os: seq<Order>, orderId: string): (r: Option<nat>)
    ensures r.Some? ==> r.value < |os| && os[r.value].orderid == orderId
    ensures r.Some? ==> forall k :: 0 <= k < r.value ==> os[k].orderid != orderId
    ensures r.None? ==> forall k :: 0 <= k < |os| ==> os[k].orderid != orderId
  {
    FirstIndex(os, (o: Order) => o.orderid == orderId)
  }

  // ---------------------------------------------------------- create-order

  /** What `POST /create-order` does to the database and answers. */
  function CreateOrderSpec(t: Tables, caller: Id, courseId: Id, reply: GatewayReply, now: Time): (r: CreateOrderOutcome)
    ensures r.status == 200 || r.status == 404 || r.status == 500
    ensures r.status == 404 <==> CourseIndex(t.courses, courseId).None?
    ensures r.status == 200 <==>
      // the saved order passes the schema exactly when every required field is non-empty
      CourseIndex(t.courses, courseId).Some? && reply.Created? && reply.orderRef != "" && caller != "" && courseId != ""
    ensures r.status != 200 ==> r.tables == t && r.order.None?
    ensures r.status == 200 ==>
      && r.order.Some? && reply.Created?
      && r.tables == t.(orders := t.orders + [r.order.value])
      && r.order.value.orderid == reply.orderRef
      && r.order.value.amount == t.courses[CourseIndex(t.courses, courseId).value].price * 100
      && r.order.value.currency == "INR"
      && r.order.value.receipt == "rcpt_" + caller + "_" + courseId
      && r.order.value.status == Pending && r.order.value.paymentid.None?
      && r.order.value.userId == caller && r.order.value.courseId == courseId
    ensures ValidTables(t) ==> ValidTables(r.tables)
  {
    match CourseIndex(t.courses, courseId)
    case None => CreateOrderOutcome(t, 404, None)
    case Some(i) =>
      match reply
      case Refused => CreateOrderOutcome(t, 500, None)
      case Created(ref) =>
        var o := Order(None, ref, t.courses[i].price * 100, Currency, Receipt(caller, courseId),
                       Pending, caller, courseId, now);
        if ValidOrder(o) then
          CreateOrderOutcome(t.(orders := t.orders + [o]), 200, Some(o))
        else
          CreateOrderOutcome(t, 500, None)
  }

  /** The handler: look the course up, ask the gateway, save the order. */
  method CreateOrder(db: Database, caller: Id, courseId: Id, reply: GatewayReply, now: Time)
    returns (status: int, order: Option<Order>)
    requires db.Valid()
    modifies db
    ensures db.Valid()
    ensures CreateOrderOutcome(db.Snapshot(), status, order) == CreateOrderSpec(old(db.Snapshot()), caller, courseId, reply, now)
  {
    var found := CourseIndex(db.courses, courseId);
    if found.None? {
      return 404, None;
    }
    var price := db.courses[found.value].price;
    if reply.Refused? {
      return 500, None;
    }
    var o := Order(None, reply.orderRef, price * 100, Currency, Receipt(caller, courseId),
                   Pending, caller, courseId, now);
    if !ValidOrder(o) {
      // `newOrder.save()` fails schema validation
      return 500, None;
    }
    db.orders := db.orders + [o];
    return 200, Some(o);
  }

  // ---------------------------------------------------------------- verify

  /** The order as `verify` saves it: completed, carrying the payment id,
      whatever its status was. */
  function Completing(o: Order, paymentId: string): (c: Order)
    ensures c.status == OrderStatus.Completed && c.paymentid == Some(paymentId)
    ensures c.orderid == o.orderid && c.userId == o.userId && c.courseId == o.courseId
    ensures c.amount == o.amount && c.receipt == o.receipt && c.currency == o.currency
  {
    o.(status := OrderStatus.Completed, paymentid := Some(paymentId))
  }

  /** What `POST /verify` does to the database and answers. */
  function VerifySpec(t: Tables, caller: Id, orderId: string, paymentId: string, signature: string,
                      sign: (string, string) -> string, secretEnv: Option<string>,
                      enrollmentId: Id, now: Time): (r: VerifyOutcome)
    ensures r.status == 200 || r.status == 400 || r.status == 404 || r.status == 500
    ensures r.status == 400 <==> sign(Secret(secretEnv), orderId + "|" + paymentId) != signature
    ensures r.status == 404 <==>
      sign(Secret(secretEnv), orderId + "|" + paymentId) == signature && OrderIndex(t.orders, orderId).None?
    ensures r.status == 400 || r.status == 404 ==> r.tables == t && r.enrollment.None?
    // past the two checks, the first order with that id is completed, whatever its status was
    ensures r.status == 200 || r.status == 500 ==>
      var i := OrderIndex(t.orders, orderId).value;
      && |r.tables.orders| == |t.orders|
      && r.tables.orders[i] == Completing(t.orders[i], paymentId)
      && (forall k :: 0 <= k < |t.orders| && k != i ==> r.tables.orders[k] == t.orders[k])
      && r.tables.reviews == t.reviews && r.tables.progress == t.progress && r.tables.users == t.users
    // past the two checks, the save fails exactly when the new enrollment breaks
    // the schema or a unique index
    ensures r.status == 500 <==>
      && sign(Secret(secretEnv), orderId + "|" + paymentId) == signature
      && OrderIndex(t.orders, orderId).Some?
      && var e := Enrollment(enrollmentId, caller, t.orders[OrderIndex(t.orders, orderId).value].courseId,
                             now, Active, 0, None, None, now);
         !ValidEnrollment(e) || !CanInsertEnrollment(t.enrollments, e)
    // the failed save keeps the completed order but no enrollment
    ensures r.status == 500 ==>
      r.enrollment.None? && r.tables.enrollments == t.enrollments && r.tables.courses == t.courses
    ensures r.status == 200 ==>
      var o := t.orders[OrderIndex(t.orders, orderId).value];
      && r.enrollment.Some?
      && r.tables.enrollments == t.enrollments + [r.enrollment.value]
      && !HasPair(t.enrollments, caller, o.courseId)
      && r.enrollment.value.student == caller && r.enrollment.value.course == o.courseId
      && r.enrollment.value.status == Active && r.enrollment.value.progress == 0
      && r.enrollment.value.enrolledAt == now
      && r.tables.courses == AddStudentToCourse(t.courses, o.courseId, caller)
    ensures ValidTables(t) ==> ValidTables(r.tables)
  {
    if sign(Secret(secretEnv), SignedMessage(orderId, paymentId)) != signature then
      VerifyOutcome(t, 400, None)
    else
      match OrderIndex(t.orders, orderId)
      case None => VerifyOutcome(t, 404, None)
      case Some(i) =>
        var o := t.orders[i];
        var t1 := t.(orders := t.orders[i := Completing(o, paymentId)]);
        var e := Enrollment(enrollmentId, caller, o.courseId, now, Active, 0, None, None, now);
        if !ValidEnrollment(e) || !CanInsertEnrollment(t1.enrollments, e) then
          assert ValidTables(t) ==> ValidTables(t1) by {
            if ValidTables(t) {
              ReplaceOrderValid(t, i, Completing(o, paymentId));
            }
          }
          VerifyOutcome(t1, 500, None)
        else
          assert ValidTables(t) ==> ValidTables(t1.(enrollments := t1.enrollments + [e],
                                                    courses := AddStudentToCourse(t1.courses, o.courseId, caller))) by {
            if ValidTables(t) {
              ReplaceOrderValid(t, i, Completing(o, paymentId));
              InsertEnrollmentValid(t1, e);
              AddStudentValid(t1.(enrollments := t1.enrollments + [e]), o.courseId, caller);
            }
          }
          VerifyOutcome(t1.(enrollments := t1.enrollments + [e],
                            courses := AddStudentToCourse(t1.courses, o.courseId, caller)), 200, Some(e))
  }

  /** The handler: check the signature, complete the order, save the
      enrollment, add the caller to the roster. */
  method Verify(db: Database, caller: Id, orderId: string, paymentId: string, signature: string,
                sign: (string, string) -> string, secretEnv: Option<string>,
                enrollmentId: Id, now: Time)
    returns (status: int, enrollment: Option<Enrollment>)
    requires db.Valid()
    modifies db
    ensures db.Valid()
    ensures VerifyOutcome(db.Snapshot(), status, enrollment)
         == VerifySpec(old(db.Snapshot()), caller, orderId, paymentId, signature, sign, secretEnv, enrollmentId, now)
  {
    ghost var spec := VerifySpec(db.Snapshot(), caller, orderId, paymentId, signature, sign, secretEnv, enrollmentId, now);
    var expected := sign(Secret(secretEnv), SignedMessage(orderId, paymentId));
    if expected != signature {
      return 400, None;
    }
    var found := OrderIndex(db.orders, orderId);
    if found.None? {
      return 404, None;
    }
    var i := found.value;
    var o := db.orders[i];
    db.orders := db.orders[i := Completing(o, paymentId)];
    var e := Enrollment(enrollmentId, caller, o.courseId, now, Active, 0, None, None, now);
    if !ValidEnrollment(e) || !CanInsertEnrollment(db.enrollments, e) {
      // `enrollment.save()` throws: schema validation or a unique index
      return 500, None;
    }
    db.enrollments := db.enrollments + [e];
    db.courses := AddStudentToCourse(db.courses, o.courseId, caller);
    assert db.Snapshot() == spec.tables;
    return 200, Some(e);
  }

  // ------------------------------------------------------------ properties

  /** A successful verify leaves the caller in the order's course roster
      exactly once when they were not there before, and touches no other
      course. */
  lemma VerifyRosterOnce(t: Tables, caller: Id, orderId: string, paymentId: string, signature: string,
                         sign: (string, string) -> string, secretEnv: Option<string>,
                         enrollmentId: Id, now: Time, k: nat)
    requires ValidTables(t)
    requires VerifySpec(t, caller, orderId, paymentId, signature, sign, secretEnv, enrollmentId, now).status == 200
    requires k < |t.courses|
    ensures var r := VerifySpec(t, caller, orderId, paymentId, signature, sign, secretEnv, enrollmentId, now);
            var courseId := t.orders[OrderIndex(t.orders, orderId).value].courseId;
            && (t.courses[k].id != courseId ==> r.tables.courses[k] == t.courses[k])
            && (t.courses[k].id == courseId ==> Member(caller) in r.tables.courses[k].enrolledStudents)
            && (t.courses[k].id == courseId && Member(caller) !in t.courses[k].enrolledStudents ==>
                  multiset(r.tables.courses[k].enrolledStudents)[Member(caller)] == 1)
  {
    AddToSetOnce(t.courses[k].enrolledStudents, caller);
  }

  /** Verifying the same order again, by the same caller, fails at the
      (student, course) index with a 500: no second enrollment is stored, and
      the order stays completed (with the new payment id). */
  lemma VerifyTwice(t: Tables, caller: Id, orderId: string, paymentId: string, signature: string,
                    sign: (string, string) -> string, secretEnv: Option<string>,
                    enrollmentId: Id, now: Time,
                    paymentId2: string, signature2: string, enrollmentId2: Id, now2: Time)
    requires VerifySpec(t, caller, orderId, paymentId, signature, sign, secretEnv, enrollmentId, now).status == 200
    requires sign(Secret(secretEnv), SignedMessage(orderId, paymentId2)) == signature2
    ensures var t1 := VerifySpec(t, caller, orderId, paymentId, signature, sign, secretEnv, enrollmentId, now).tables;
            var r := VerifySpec(t1, caller, orderId, paymentId2, signature2, sign, secretEnv, enrollmentId2, now2);
            && r.status == 500
            && r.tables.enrollments == t1.enrollments
            && r.tables.courses == t1.courses
            && r.tables.orders[OrderIndex(t1.orders, orderId).value].status == OrderStatus.Completed
  {
    var first := VerifySpec(t, caller, orderId, paymentId, signature, sign, secretEnv, enrollmentId, now);
    var t1 := first.tables;
    var i := OrderIndex(t.orders, orderId).value;
    // the first order with that id is the same one after completing it
    assert t1.orders[i].orderid == orderId;
    var j := OrderIndex(t1.orders, orderId).value;
    assert j == i;
    var e := first.enrollment.value;
    var n := |t1.enrollments| - 1;
    assert t1.enrollments[n] == e;
    assert HasPair(t1.enrollments, caller, t.orders[i].courseId);
  }

  /** The end-to-end purchase: on a course nobody has ordered under that gateway
      id, creating an order and then verifying it with the gateway's signature
      enrolls the buyer in the course, completes the order and puts the buyer in
      the roster. */
  lemma CreateThenVerify(t: Tables, caller: Id, courseId: Id, orderRef: string, now: Time,
                         paymentId: string, sign: (string, string) -> string, secretEnv: Option<string>,
                         enrollmentId: Id, now2: Time)
    requires ValidTables(t)
    requires CreateOrderSpec(t, caller, courseId, Created(orderRef), now).status == 200
    requires OrderIndex(t.orders, orderRef).None?
    requires !HasPair(t.enrollments, caller, courseId)
    requires EnrollmentIndex(t.enrollments, enrollmentId).None?
    ensures var t1 := CreateOrderSpec(t, caller, courseId, Created(orderRef), now).tables;
            var r := VerifySpec(t1, caller, orderRef, paymentId, sign(Secret(secretEnv), SignedMessage(orderRef, paymentId)),
                                sign, secretEnv, enrollmentId, now2);
            && r.status == 200
            && r.tables.orders[|t.orders|].status == OrderStatus.Completed
            && r.tables.orders[|t.orders|].paymentid == Some(paymentId)
            && HasPair(r.tables.enrollments, caller, courseId)
            && Member(caller) in r.tables.courses[CourseIndex(t.courses, courseId).value].enrolledStudents
  {
    var created := CreateOrderSpec(t, caller, courseId, Created(orderRef), now);
    var t1 := created.tables;
    var o := created.order.value;
    assert t1.orders[|t.orders|] == o;
    var j := OrderIndex(t1.orders, orderRef).value;
    assert j == |t.orders|;
    var r := VerifySpec(t1, caller, orderRef, paymentId, sign(Secret(secretEnv), SignedMessage(orderRef, paymentId)),
                        sign, secretEnv, enrollmentId, now2);
    assert r.status == 200;
    var n := |r.tables.enrollments| - 1;
    assert r.tables.enrollments[n].student == caller && r.tables.enrollments[n].course == courseId;
  }
}
