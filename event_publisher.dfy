/** The event publisher job: the gate that decides whether an application
    event is dispatched at all, and the router that decides which generator
    jobs it enqueues (decidim-core/app/jobs/decidim/event_publisher_job.rb).

    `perform_later` is modelled as appending a `Job` to the sequence the
    method returns; queues and asynchrony are not modelled. */
module EventPublisher {
  import opened Wrappers
  import RubyCore

  type UserId = nat

  /** A Ruby value as it can appear in the `extra` hash: symbols and strings
      are different values (`:high` is not `"high"`). */
  datatype Value = Sym(name: string) | Str(text: string) | Num(n: int)

  /** A participatory space, as far as the gate looks at it. */
  datatype Space = Space(publicable: bool, published: bool)

  /** A component: it is always publishable, and may belong to a space. */
  datatype Component = Component(published: bool, participatorySpace: Option<Space>)

  /** The resource an event is about.  The three role flags say which of the
      concerns `Decidim::HasComponent`, `Decidim::Component` and
      `Decidim::ParticipatorySpaceResourceable` its class has;
      `component` is what `resource.component` answers and
      `participatorySpace` what `resource.participatory_space` answers. */
  datatype Resource = Resource(
    id: nat,
    publicable: bool,
    published: bool,
    hasComponent: bool,
    component: Option<Component>,
    isComponent: bool,
    participatorySpace: Option<Space>,
    spaceResourceable: bool)

  /** The `data` hash given to `perform`. */
  datatype EventData = EventData(
    resource: Option<Resource>,
    forceSend: bool,
    eventClass: string,
    followers: seq<UserId>,
    affectedUsers: seq<UserId>,
    extra: Option<map<Value, Value>>)

  /** Installation settings the job reads: `Decidim.config.batch_email_notifications_enabled`
      and `Decidim::Notification::PRIORITY_LEVELS` (defined outside this model). */
  datatype Config = Config(batchEmailNotificationsEnabled: bool, priorityLevels: set<Value>)

  datatype JobClass = NotificationGeneratorJob | EmailNotificationGeneratorJob

  /** One `perform_later` call with its six arguments. */
  datatype Job = Job(
    jobClass: JobClass,
    eventName: string,
    eventClass: string,
    resource: Option<Resource>,
    followers: seq<UserId>,
    affectedUsers: seq<UserId>,
    extra: Option<map<Value, Value>>)

  /** What one `perform` does: the jobs it enqueued, in order, and whether it
      ended by raising (`nil.fetch` when `data[:extra]` is nil). */
  datatype Outcome = Outcome(enqueued: seq<Job>, raised: bool)

  const High := Sym("high")
  const Low := Sym("low")

  // ---------------------------------------------------------------------
  // Resolution of the component and the participatory space

  /** `component`: a HasComponent resource gives its component, a Component
      resource gives itself, anything else gives nil. */
  function ComponentOf(resource: Option<Resource>): (c: Option<Component>)
    ensures resource.Some? && resource.value.hasComponent ==> c == resource.value.component
    ensures resource.Some? && !resource.value.hasComponent && resource.value.isComponent ==>
              c == Some(Component(resource.value.published, resource.value.participatorySpace))
    ensures resource.None? || (!resource.value.hasComponent && !resource.value.isComponent) ==> c.None?
  {
    match resource
    case None => None
    case Some(r) =>
      if r.hasComponent then r.component
      else if r.isComponent then Some(Component(r.published, r.participatorySpace))
      else None
  }

  /** `participatory_space`: the resource itself when it is a space, otherwise
      the space of its component (nil when there is no component). */
  function SpaceOf(resource: Option<Resource>): (s: Option<Space>)
    ensures resource.Some? && resource.value.spaceResourceable ==>
              s == Some(Space(resource.value.publicable, resource.value.published))
    ensures (resource.None? || !resource.value.spaceResourceable) ==>
              s == (if ComponentOf(resource).Some? then ComponentOf(resource).value.participatorySpace else None)
  {
    if resource.Some? && resource.value.spaceResourceable then
      Some(Space(resource.value.publicable, resource.value.published))
    else
      match ComponentOf(resource)
      case None => None
      case Some(c) => c.participatorySpace
  }

  // ---------------------------------------------------------------------
  // The gate

  predicate ResourceUnpublished(resource: Option<Resource>) {
    resource.Some? && resource.value.publicable && !resource.value.published
  }

  predicate SpaceUnpublished(resource: Option<Resource>) {
    var s := SpaceOf(resource);
    s.Some? && s.value.publicable && !s.value.published
  }

  predicate ComponentUnpublished(resource: Option<Resource>) {
    var c := ComponentOf(resource);
    c.Some? && !c.value.published
  }

  /** `notifiable?`: the first of the three checks that finds something
      unpublished makes the event not notifiable. */
  predicate Notifiable(resource: Option<Resource>) {
    if ResourceUnpublished(resource) then false
    else if SpaceUnpublished(resource) then false
    else if ComponentUnpublished(resource) then false
    else true
  }

  /** What `notifiable?` answers for each kind of resource, read off its own fields. */
  lemma NotifiableByKind(r: Resource)
    ensures r.publicable && !r.published ==> !Notifiable(Some(r))
    ensures r.spaceResourceable ==>
              (Notifiable(Some(r)) <==> !(r.publicable && !r.published) && !ComponentUnpublished(Some(r)))
    ensures !r.spaceResourceable && r.hasComponent && r.component.Some? ==>
              (Notifiable(Some(r)) <==>
                 !(r.publicable && !r.published) && r.component.value.published &&
                 !(r.component.value.participatorySpace.Some? &&
                   r.component.value.participatorySpace.value.publicable &&
                   !r.component.value.participatorySpace.value.published))
    ensures !r.spaceResourceable && r.hasComponent && r.component.None? ==>
              (Notifiable(Some(r)) <==> !(r.publicable && !r.published))
    ensures !r.spaceResourceable && !r.hasComponent && r.isComponent ==>
              (Notifiable(Some(r)) <==>
                 r.published &&
                 !(r.participatorySpace.Some? && r.participatorySpace.value.publicable &&
                   !r.participatorySpace.value.published))
    ensures !r.spaceResourceable && !r.hasComponent && !r.isComponent ==>
              (Notifiable(Some(r)) <==> !(r.publicable && !r.published))
  {
  }

  /** Without a resource there is nothing to be unpublished. */
  lemma NilResourceNotifiable()
    ensures Notifiable(None)
  {
  }

  // ---------------------------------------------------------------------
  // Priority

  /** `data[:extra].fetch(:priority, :low)`. */
  function PriorityLevel(extra: map<Value, Value>): (p: Value)
    ensures Sym("priority") !in extra ==> p == Low
    ensures Sym("priority") in extra ==> p == extra[Sym("priority")]
  {
    if Sym("priority") in extra then extra[Sym("priority")] else Low
  }

  /** `high_priority?`: false for a level outside PRIORITY_LEVELS, otherwise
      whether the level is `:high`. */
  predicate HighPriority(extra: map<Value, Value>, levels: set<Value>) {
    var p := PriorityLevel(extra);
    if p !in levels then false else p == High
  }

  /** Only `:high`, and only when it is a known level, is high priority; in
      particular an absent priority is not high, although the comment above
      `high_priority?` says a blank priority is. */
  lemma HighPriorityIff(extra: map<Value, Value>, levels: set<Value>)
    ensures HighPriority(extra, levels) <==>
              Sym("priority") in extra && extra[Sym("priority")] == High && High in levels
    ensures Sym("priority") !in extra ==> !HighPriority(extra, levels)
    ensures PriorityLevel(extra) !in levels ==> !HighPriority(extra, levels)
    ensures Sym("priority") in extra && extra[Sym("priority")] == Str("high") ==> !HighPriority(extra, levels)
  {
  }

  // ---------------------------------------------------------------------
  // Dispatch

  function JobFor(jobClass: JobClass, eventName: string, data: EventData): (j: Job)
    ensures j.jobClass == jobClass && j.eventName == eventName
    ensures j.eventClass == data.eventClass && j.resource == data.resource
    ensures j.followers == data.followers && j.affectedUsers == data.affectedUsers
    ensures j.extra == data.extra
  {
    Job(jobClass, eventName, data.eventClass, data.resource, data.followers, data.affectedUsers, data.extra)
  }

  /** `send_event`: one job unless the event name is blank. */
  method SendEvent(jobClass: JobClass, eventName: Option<string>, data: EventData, queue: seq<Job>)
    returns (queue': seq<Job>)
    ensures RubyCore.Blank(eventName) ==> queue' == queue
    ensures !RubyCore.Blank(eventName) ==> queue' == queue + [JobFor(jobClass, eventName.value, data)]
  {
    queue' := queue;
    if RubyCore.Blank(eventName) {
      return;
    }
    queue' := queue' + [Job(jobClass, eventName.value, data.eventClass, data.resource,
                            data.followers, data.affectedUsers, data.extra)];
  }

  /** `perform(event_name, data)`. */
  method Perform(eventName: Option<string>, data: EventData, config: Config) returns (outcome: Outcome)
    // the gate: force_send skips it, otherwise an unpublished link stops everything
    ensures !data.forceSend && !Notifiable(data.resource) ==> outcome == Outcome([], false)
    // a blank event name enqueues nothing, whatever the gate says
    ensures RubyCore.Blank(eventName) ==> outcome.enqueued == []
    // past the gate, `data[:extra]` being nil makes `fetch` raise
    ensures outcome.raised <==> (data.forceSend || Notifiable(data.resource)) && data.extra.None?
    // the raise comes after the in-app job and before the email job
    ensures outcome.raised ==>
              outcome.enqueued == (if RubyCore.Blank(eventName) then []
                                   else [JobFor(NotificationGeneratorJob, eventName.value, data)])
    // past the gate with a name, the in-app job always comes first
    ensures (data.forceSend || Notifiable(data.resource)) && !RubyCore.Blank(eventName) ==>
              |outcome.enqueued| >= 1 &&
              outcome.enqueued[0] == JobFor(NotificationGeneratorJob, eventName.value, data)
    // and the email job follows iff the priority is high or batching is off
    ensures (data.forceSend || Notifiable(data.resource)) && !RubyCore.Blank(eventName) && data.extra.Some? ==>
              (|outcome.enqueued| == 2 <==>
                 HighPriority(data.extra.value, config.priorityLevels) || !config.batchEmailNotificationsEnabled)
    ensures |outcome.enqueued| <= 2
    ensures |outcome.enqueued| == 2 ==>
              outcome.enqueued[1] == JobFor(EmailNotificationGeneratorJob, eventName.value, data)
    // every enqueued job carries the data's event class, resource, recipients and extra
    ensures forall j :: j in outcome.enqueued ==>
              j.eventClass == data.eventClass && j.resource == data.resource &&
              j.followers == data.followers && j.affectedUsers == data.affectedUsers &&
              j.extra == data.extra
  {
    if !(data.forceSend || Notifiable(data.resource)) {
      return Outcome([], false);
    }
    var queue := SendEvent(NotificationGeneratorJob, eventName, data, []);
    if data.extra.None? {
      return Outcome(queue, true);
    }
    if HighPriority(data.extra.value, config.priorityLevels) || !config.batchEmailNotificationsEnabled {
      queue := SendEvent(EmailNotificationGeneratorJob, eventName, data, queue);
    }
    outcome := Outcome(queue, false);
  }
}
