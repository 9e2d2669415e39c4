/** The in-process event bus and the handlers that turn lifecycle events into notifications. */
module Events {
  import opened Domain
  import opened Notifications

  datatype EventType =
    | LoanCreatedEvent | LoanReturnedEvent | LoanCancelledEvent
    | ReservationCreatedEvent | ReservationCancelledEvent

  // `subject` is the loan or the reservation the event is about.
  datatype Event = Event(eventType: EventType, subject: Id, userId: Id)

  datatype HandlerClass =
    | LoanCreatedHandler | LoanReturnedHandler | LoanCancelledHandler
    | ReservationCreatedHandler | ReservationCancelledHandler

  datatype Handler = Handler(cls: HandlerClass, service: NotificationService)

  function RowOf(cls: HandlerClass, event: Event, now: Time): Notification {
    match cls
    case LoanCreatedHandler => LoanNotice(event.userId, event.subject, LoanCreatedNotice, now)
    case LoanReturnedHandler => LoanNotice(event.userId, event.subject, LoanReturnedNotice, now)
    case LoanCancelledHandler => LoanNotice(event.userId, event.subject, LoanCancelledNotice, now)
    case ReservationCreatedHandler => ReservationNotice(event.userId, event.subject, ReservationCreatedNotice, now)
    case ReservationCancelledHandler => ReservationNotice(event.userId, event.subject, ReservationCancelledNotice, now)
  }

  function OwnHandler(eventType: EventType): HandlerClass {
    match eventType
    case LoanCreatedEvent => LoanCreatedHandler
    case LoanReturnedEvent => LoanReturnedHandler
    case LoanCancelledEvent => LoanCancelledHandler
    case ReservationCreatedEvent => ReservationCreatedHandler
    case ReservationCancelledEvent => ReservationCancelledHandler
  }

  // ---------- the subscription table, by handler class ----------

  type Table = map<EventType, seq<HandlerClass>>

  function Of(table: Table, eventType: EventType): seq<HandlerClass> {
    if eventType in table then table[eventType] else []
  }

  function Subscribed(table: Table, eventType: EventType, cls: HandlerClass): Table {
    if cls in Of(table, eventType) then table else table[eventType := Of(table, eventType) + [cls]]
  }

  // `register_event_handlers`, in its order.
  function Registered(table: Table): Table {
    var t1 := Subscribed(table, LoanCreatedEvent, LoanCreatedHandler);
    var t2 := Subscribed(t1, LoanReturnedEvent, LoanReturnedHandler);
    var t3 := Subscribed(t2, LoanCancelledEvent, LoanCancelledHandler);
    var t4 := Subscribed(t3, ReservationCreatedEvent, ReservationCreatedHandler);
    Subscribed(t4, ReservationCancelledEvent, ReservationCancelledHandler)
  }

  function RegisteredTimes(table: Table, times: nat): Table {
    if times == 0 then table else Registered(RegisteredTimes(table, times - 1))
  }

  function Delivered(classes: seq<HandlerClass>, event: Event, now: Time): seq<Notification> {
    seq(|classes|, i requires 0 <= i < |classes| => RowOf(classes[i], event, now))
  }

  ghost predicate NoClassTwice(table: Table) {
    forall t | t in table :: forall i, j | 0 <= i < j < |table[t]| :: table[t][i] != table[t][j]
  }

  lemma SubscribingKeepsNoClassTwice(table: Table, eventType: EventType, cls: HandlerClass)
    requires NoClassTwice(table)
    ensures NoClassTwice(Subscribed(table, eventType, cls))
    ensures cls in Of(Subscribed(table, eventType, cls), eventType)
    ensures forall t, c :: c in Of(table, t) ==> c in Of(Subscribed(table, eventType, cls), t)
  {
    var after := Subscribed(table, eventType, cls);
    if cls !in Of(table, eventType) {
      assert after[eventType][|Of(table, eventType)|] == cls;
    }
  }

  ghost predicate AllSubscribed(table: Table) {
    forall t: EventType :: OwnHandler(t) in Of(table, t)
  }

  lemma RegisteringSubscribes(table: Table)
    requires NoClassTwice(table)
    ensures NoClassTwice(Registered(table)) && AllSubscribed(Registered(table))
  {
    var t1 := Subscribed(table, LoanCreatedEvent, LoanCreatedHandler);
    var t2 := Subscribed(t1, LoanReturnedEvent, LoanReturnedHandler);
    var t3 := Subscribed(t2, LoanCancelledEvent, LoanCancelledHandler);
    var t4 := Subscribed(t3, ReservationCreatedEvent, ReservationCreatedHandler);
    SubscribingKeepsNoClassTwice(table, LoanCreatedEvent, LoanCreatedHandler);
    SubscribingKeepsNoClassTwice(t1, LoanReturnedEvent, LoanReturnedHandler);
    SubscribingKeepsNoClassTwice(t2, LoanCancelledEvent, LoanCancelledHandler);
    SubscribingKeepsNoClassTwice(t3, ReservationCreatedEvent, ReservationCreatedHandler);
    SubscribingKeepsNoClassTwice(t4, ReservationCancelledEvent, ReservationCancelledHandler);
    forall t: EventType
      ensures OwnHandler(t) in Of(Registered(table), t)
    {
      match t {
        case LoanCreatedEvent => case LoanReturnedEvent => case LoanCancelledEvent =>
        case ReservationCreatedEvent => case ReservationCancelledEvent =>
      }
    }
  }

  lemma RegisteringSubscribed(table: Table)
    requires AllSubscribed(table)
    ensures Registered(table) == table
  {
    assert OwnHandler(LoanCreatedEvent) in Of(table, LoanCreatedEvent);
    assert OwnHandler(LoanReturnedEvent) in Of(table, LoanReturnedEvent);
    assert OwnHandler(LoanCancelledEvent) in Of(table, LoanCancelledEvent);
    assert OwnHandler(ReservationCreatedEvent) in Of(table, ReservationCreatedEvent);
    assert OwnHandler(ReservationCancelledEvent) in Of(table, ReservationCancelledEvent);
  }

  /** However many times the handlers are registered on a bus, the table is the one after the first
      time: each event type keeps one handler of its class. */
  lemma {:induction false} RegisteringAgainChangesNothing(table: Table, times: nat)
    requires NoClassTwice(table) && times > 0
    ensures RegisteredTimes(table, times) == Registered(table)
    ensures NoClassTwice(Registered(table)) && AllSubscribed(Registered(table))
  {
    RegisteringSubscribes(table);
    if times == 1 {
      assert RegisteredTimes(table, 0) == table;
    } else {
      RegisteringAgainChangesNothing(table, times - 1);
      RegisteringSubscribed(Registered(table));
    }
  }

  ghost predicate OneHandlerEach(table: Table) {
    forall t: EventType :: Of(table, t) == [OwnHandler(t)]
  }

  /** On a bus that started empty, any event delivers exactly one notification, for any number of
      registrations. */
  lemma ExactlyOneDelivery(times: nat, event: Event, now: Time)
    requires times > 0
    ensures OneHandlerEach(RegisteredTimes(map[], times))
    ensures Delivered(Of(RegisteredTimes(map[], times), event.eventType), event, now)
         == [RowOf(OwnHandler(event.eventType), event, now)]
  {
    RegisteringAgainChangesNothing(map[], times);
    RegisteredFromEmpty();
  }

  lemma RegisteredFromEmpty()
    ensures OneHandlerEach(Registered(map[]))
  {
  }

  // ---------- the bus ----------

  function ClassSeq(handlers: seq<Handler>): seq<HandlerClass> {
    seq(|handlers|, i requires 0 <= i < |handlers| => handlers[i].cls)
  }

  function ClassTable(handlers: map<EventType, seq<Handler>>): Table {
    map t | t in handlers :: ClassSeq(handlers[t])
  }

  // Every handler writes to this table of notifications.
  ghost predicate AllWriteTo(handlers: map<EventType, seq<Handler>>, repository: NotificationRepository) {
    forall t | t in handlers :: forall h | h in handlers[t] :: h.service.repository == repository
  }

  class EventBus {
    var handlers: map<EventType, seq<Handler>>

    constructor ()
      ensures handlers == map[]
    {
      handlers := map[];
    }

    ghost function Classes(): Table
      reads this
    {
      ClassTable(handlers)
    }

    ghost predicate WritesTo(repository: NotificationRepository)
      reads this
    {
      AllWriteTo(handlers, repository)
    }

    method Subscribe(eventType: EventType, handler: Handler)
      requires WritesTo(handler.service.repository)
      modifies this
      ensures Classes() == Subscribed(old(Classes()), eventType, handler.cls)
      ensures WritesTo(handler.service.repository)
    {
      var present := if eventType in handlers then handlers[eventType] else [];
      assert ClassSeq(present) == Of(Classes(), eventType);
      if exists i | 0 <= i < |present| :: present[i].cls == handler.cls {
        var i :| 0 <= i < |present| && present[i].cls == handler.cls;
        assert ClassSeq(present)[i] == handler.cls;
        return;
      }
      ghost var before := Classes();
      handlers := handlers[eventType := present + [handler]];
      assert ClassSeq(present + [handler]) == ClassSeq(present) + [handler.cls];
      assert Classes() == Subscribed(before, eventType, handler.cls);
    }

    // Looking up an event type without handlers stores an empty list for it.
    method Publish(event: Event, now: Time, repository: NotificationRepository)
      requires WritesTo(repository)
      modifies this, repository
      ensures WritesTo(repository)
      ensures forall t :: Of(Classes(), t) == Of(old(Classes()), t)
      ensures repository.rows == old(repository.rows) + Delivered(Of(old(Classes()), event.eventType), event, now)
    {
      ghost var classes := Of(Classes(), event.eventType);
      if event.eventType !in handlers {
        handlers := handlers[event.eventType := []];
      }
      var called := handlers[event.eventType];
      assert classes == ClassSeq(called);
      ghost var stored := handlers;
      var i := 0;
      while i < |called|
        invariant 0 <= i <= |called| && handlers == stored
        invariant repository.rows == old(repository.rows) + Delivered(classes, event, now)[..i]
      {
        Handle(called[i], event, now);
        assert Delivered(classes, event, now)[..i + 1]
            == Delivered(classes, event, now)[..i] + [RowOf(called[i].cls, event, now)];
        i := i + 1;
      }
      assert Delivered(classes, event, now)[..|called|] == Delivered(classes, event, now);
    }
  }

  method Handle(handler: Handler, event: Event, now: Time)
    modifies handler.service.repository
    ensures handler.service.repository.rows ==
            old(handler.service.repository.rows) + [RowOf(handler.cls, event, now)]
  {
    var service := handler.service;
    var row: Notification;
    match handler.cls {
      case LoanCreatedHandler =>
        row := service.SendNotification(event.userId, LoanCreatedNotice, Some(event.subject), None, now);
      case LoanReturnedHandler =>
        row := service.SendNotification(event.userId, LoanReturnedNotice, Some(event.subject), None, now);
      case LoanCancelledHandler =>
        row := service.SendNotification(event.userId, LoanCancelledNotice, Some(event.subject), None, now);
      case ReservationCreatedHandler =>
        row := service.SendNotification(event.userId, ReservationCreatedNotice, None, Some(event.subject), now);
      case ReservationCancelledHandler =>
        row := service.SendNotification(event.userId, ReservationCancelledNotice, None, Some(event.subject), now);
    }
  }

  // `register_event_handlers`.
  method RegisterEventHandlers(bus: EventBus, repository: NotificationRepository)
    requires bus.WritesTo(repository)
    modifies bus
    ensures bus.Classes() == Registered(old(bus.Classes()))
    ensures bus.WritesTo(repository)
  {
    var service := new NotificationService(repository);
    bus.Subscribe(LoanCreatedEvent, Handler(LoanCreatedHandler, service));
    bus.Subscribe(LoanReturnedEvent, Handler(LoanReturnedHandler, service));
    bus.Subscribe(LoanCancelledEvent, Handler(LoanCancelledHandler, service));
    bus.Subscribe(ReservationCreatedEvent, Handler(ReservationCreatedHandler, service));
    bus.Subscribe(ReservationCancelledEvent, Handler(ReservationCancelledHandler, service));
  }
}
