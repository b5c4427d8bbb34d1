/**
 * The versioned asset repository: heads, versions and subscriptions, with ownership, optimistic
 * version checks and forks. Calls on the store are serial.
 */
module AssetStore {
  import opened Sequences
  import opened Wrappers

  const MAX_CONTENT_BYTES := 10 * 1024 * 1024
  const MAX_ASSET_ID_LENGTH := 128
  const MAX_ASSET_NAME_LENGTH := 120
  const MAX_ASSET_FIELD_LENGTH := 128
  const MAX_DESCRIPTION_BYTES := 16 * 1024
  const MAX_TAG_COUNT := 20
  const MAX_TAG_LENGTH := 48
  const MAX_CHANGE_SUMMARY_LENGTH := 280

  type AssetId = string
  type UserId = nat

  datatype AssetType = Variant | Component | ModdingRecipe
  datatype Visibility = Public | Private

  /**
   * A JSON payload: its text by an opaque name, its UTF-8 length, and what it looks like. An
   * envelope is a payload that is itself shaped like a stored record.
   */
  datatype Shape = Proper | Envelope | Malformed
  datatype Content = Content(text: nat, bytes: nat, shape: Shape)

  /** A description: its text and the blanks around it, each by an opaque name and its UTF-8 length. */
  datatype Description = Description(text: nat, textBytes: nat, blanks: nat, blankBytes: nat)
  datatype Details = Details(kind: string, baseNodeType: string, serviceClass: string, operatorClass: Option<string>)

  /** What a record says of its asset; only a variant has details. */
  datatype About = About(name: string, description: Description, tags: seq<string>, details: Option<Details>)

  datatype Head = Head(
    assetType: AssetType,
    owner: UserId,
    visibility: Visibility,
    current: nat,
    about: About,
    createdAt: int,
    updatedAt: int)

  datatype Key = Key(id: AssetId, number: nat)
  datatype Version = Version(content: Content, createdAt: int, author: UserId, note: Option<string>)

  datatype Subscriber = Subscriber(id: AssetId, user: UserId)
  datatype Subscription = Subscription(subscribedAt: int, lastSeen: Option<nat>)

  datatype State = State(
    heads: map<AssetId, Head>,
    versions: map<Key, Version>,
    subscriptions: map<Subscriber, Subscription>)

  datatype Failure = Invalid | NotFound | Forbidden | Conflict(current: nat) | Constraint

  /** What a read finds. */
  datatype Found = Found(head: Head, number: nat, version: Version, subscription: Option<Subscription>)

  datatype Outcome = Outcome(state: State, result: Result<Found, Failure>)

  /** The calls of users that write. Names, ids, tags and notes are as given, already trimmed; `None` is absent. */
  datatype Op =
    | Create(id: AssetId, assetType: AssetType, user: UserId, visibility: Visibility, about: About,
             content: Content, createdAt: Option<int>, note: Option<string>, now: int)
    | Update(id: AssetId, assetType: AssetType, user: UserId, newVisibility: Option<Visibility>,
             expected: Option<int>, about: About, content: Content, note: Option<string>, now: int)
    | Delete(id: AssetId, assetType: AssetType, user: UserId)
    | Subscribe(id: AssetId, assetType: AssetType, user: UserId, now: int)
    | Unsubscribe(id: AssetId, assetType: AssetType, user: UserId)
    | EditNote(id: AssetId, assetType: AssetType, user: UserId, number: int, note: Option<string>)
    | Fork(id: AssetId, assetType: AssetType, user: UserId, newId: AssetId, newName: Option<string>,
           newVisibility: Option<Visibility>, note: Option<string>, now: int)
    | SetVisibility(id: AssetId, assetType: AssetType, user: UserId, visibility: Visibility,
                    expected: Option<int>, now: int)
    | SetMeta(id: AssetId, assetType: AssetType, user: UserId, name: string, description: Description,
              tags: seq<string>, now: int)

  /** A user's call, or one of an administrator, who is asked for no ownership. A hint names the type, if given. */
  datatype Call =
    | By(op: Op)
    | ManageVisibility(id: AssetId, hint: Option<AssetType>, visibility: Visibility, now: int)
    | ManageDelete(id: AssetId, hint: Option<AssetType>)
    | PurgeAll

  const Empty := State(map[], map[], map[])

  // ---------------------------------------------------------------------------------------
  // Validation
  // ---------------------------------------------------------------------------------------

  predicate SafeChar(c: char) {
    'A' <= c <= 'Z' || 'a' <= c <= 'z' || '0' <= c <= '9' || c in "._~-"
  }

  predicate IdOk(id: AssetId) {
    0 < |id| <= MAX_ASSET_ID_LENGTH && forall i :: 0 <= i < |id| ==> SafeChar(id[i])
  }

  predicate NameOk(name: string) {
    0 < |name| <= MAX_ASSET_NAME_LENGTH
  }

  predicate FieldOk(field: string) {
    0 < |field| <= MAX_ASSET_FIELD_LENGTH
  }

  predicate DetailsOk(details: Details) {
    && FieldOk(details.kind) && FieldOk(details.baseNodeType) && FieldOk(details.serviceClass)
    && (details.operatorClass.Some? ==> FieldOk(details.operatorClass.value))
  }

  predicate TagsOk(tags: seq<string>) {
    |tags| <= MAX_TAG_COUNT && forall i :: 0 <= i < |tags| ==> 0 < |tags[i]| <= MAX_TAG_LENGTH
  }

  predicate MetaOk(name: string, description: Description, tags: seq<string>) {
    NameOk(name) && description.textBytes + description.blankBytes <= MAX_DESCRIPTION_BYTES && TagsOk(tags)
  }

  predicate AboutOk(assetType: AssetType, about: About) {
    && MetaOk(about.name, about.description, about.tags)
    && (assetType == Variant ==> about.details.Some? && DetailsOk(about.details.value))
  }

  /** What is stored of it. */
  function Stored(assetType: AssetType, about: About): About {
    if assetType == Variant then about else about.(details := None)
  }

  predicate NoteOk(note: Option<string>) {
    note.Some? ==> |note.value| <= MAX_CHANGE_SUMMARY_LENGTH
  }

  /** Only modding recipes refuse an envelope when it is written. */
  predicate ContentOk(assetType: AssetType, content: Content) {
    content.shape != Malformed && (assetType == ModdingRecipe ==> content.shape == Proper)
  }

  ghost predicate Between(n: int, text: string, m: int) {
    n <= |text| <= m
  }

  /** What is accepted of ids, names, descriptions, tags, details, notes and payloads, in plain numbers. */
  lemma LimitsAre(id: AssetId, assetType: AssetType, about: About, note: Option<string>, content: Content)
    ensures IdOk(id) <==> Between(1, id, 128) && forall i :: 0 <= i < |id| ==>
              'a' <= id[i] <= 'z' || 'A' <= id[i] <= 'Z' || '0' <= id[i] <= '9' || id[i] in {'.', '_', '~', '-'}
    ensures AboutOk(assetType, about) <==>
            && Between(1, about.name, 120) && about.description.textBytes + about.description.blankBytes <= 16384
            && |about.tags| <= 20 && (forall i :: 0 <= i < |about.tags| ==> Between(1, about.tags[i], 48))
            && (assetType == Variant ==>
                  about.details.Some?
                  && var d := about.details.value;
                  && Between(1, d.kind, 128) && Between(1, d.baseNodeType, 128) && Between(1, d.serviceClass, 128)
                  && (d.operatorClass.Some? ==> Between(1, d.operatorClass.value, 128)))
    ensures NoteOk(note) <==> note.None? || Between(0, note.value, 280)
    ensures ContentOk(assetType, content) <==>
            content.shape == Proper || (content.shape == Envelope && assetType != ModdingRecipe)
    ensures MAX_CONTENT_BYTES == 10485760
  {
    assert forall c: char :: c in "._~-" <==> c in {'.', '_', '~', '-'} by {
      assert "._~-"[0] == '.' && "._~-"[1] == '_' && "._~-"[2] == '~' && "._~-"[3] == '-';
    }
  }

  /** An absent expectation is fine, a given one must be a positive number. */
  predicate ExpectedOk(expected: Option<int>) {
    expected.Some? ==> expected.value > 0
  }

  predicate Stale(head: Head, expected: Option<int>) {
    expected.Some? && expected.value != head.current
  }

  // ---------------------------------------------------------------------------------------
  // Reads
  // ---------------------------------------------------------------------------------------

  /** The join with the current version: a head without it is not found. */
  function FindHead(s: State, id: AssetId): Option<Head> {
    if id in s.heads && Key(id, s.heads[id].current) in s.versions then Some(s.heads[id]) else None
  }

  function Typed(s: State, id: AssetId, assetType: AssetType): Result<Head, Failure> {
    var head := FindHead(s, id);
    if head.None? || head.value.assetType != assetType then Err(NotFound) else Ok(head.value)
  }

  function Owned(s: State, id: AssetId, assetType: AssetType, user: UserId): Result<Head, Failure> {
    var head := Typed(s, id, assetType);
    if head.Ok? && head.value.owner != user then Err(Forbidden) else head
  }

  predicate Owns(viewer: Option<UserId>, head: Head) {
    viewer == Some(head.owner)
  }

  function Context(s: State, id: AssetId, assetType: AssetType, viewer: Option<UserId>, number: Option<int>)
    : Result<Found, Failure>
  {
    var typed := Typed(s, id, assetType);
    if typed.Err? then Err(typed.error)
    else
      var head := typed.value;
      if head.visibility != Public && !Owns(viewer, head) then Err(Forbidden)
      else if number.Some? && number.value <= 0 then Err(Invalid)
      else
        var target := if number.None? then head.current else number.value;
        if target != head.current && head.visibility != Public && !Owns(viewer, head) then Err(Forbidden)
        else if Key(id, target) !in s.versions then Err(NotFound)
        else Ok(Found(head, target, s.versions[Key(id, target)], FindSubscription(s, id, viewer)))
  }

  /** The same read with its permission test made once, before the version is known. */
  ghost function ContextOnce(s: State, id: AssetId, assetType: AssetType, viewer: Option<UserId>, number: Option<int>)
    : Result<Found, Failure>
  {
    var typed := Typed(s, id, assetType);
    if typed.Err? then Err(typed.error)
    else if !MayView(typed.value, viewer) then Err(Forbidden)
    else
      var target := if number.None? then typed.value.current else number.value;
      if number.Some? && target <= 0 then Err(Invalid)
      else if Key(id, target) !in s.versions then Err(NotFound)
      else Ok(Found(typed.value, target, s.versions[Key(id, target)], FindSubscription(s, id, viewer)))
  }

  function FindSubscription(s: State, id: AssetId, viewer: Option<UserId>): Option<Subscription> {
    if viewer.Some? && Subscriber(id, viewer.value) in s.subscriptions
    then Some(s.subscriptions[Subscriber(id, viewer.value)])
    else None
  }

  /** Reading content refuses a stored envelope, whatever the type. */
  function ReadContent(s: State, id: AssetId, assetType: AssetType, viewer: Option<UserId>, number: Option<int>)
    : Result<Found, Failure>
  {
    var found := Context(s, id, assetType, viewer, number);
    if found.Ok? && found.value.version.content.shape != Proper then Err(Invalid) else found
  }

  // ---------------------------------------------------------------------------------------
  // Writes
  // ---------------------------------------------------------------------------------------

  /** A write ends by reading the current version back for the caller. */
  function Written(s: State, id: AssetId, assetType: AssetType, user: UserId): Outcome {
    Outcome(s, Context(s, id, assetType, Some(user), None))
  }

  function Refused(s: State, failure: Failure): Outcome {
    Outcome(s, Err(failure))
  }

  function Performed(s: State, op: Op): Outcome {
    match op
    case Create(_, _, _, _, _, _, _, _, _) => Created(s, op)
    case Update(_, _, _, _, _, _, _, _, _) => Updated(s, op)
    case Delete(_, _, _) => Removed(s, op)
    case Subscribe(_, _, _, _) => Subscribed(s, op)
    case Unsubscribe(_, _, _) => Unsubscribed(s, op)
    case EditNote(_, _, _, _, _) => Noted(s, op)
    case Fork(_, _, _, _, _, _, _, _) => Forked(s, op)
    case SetVisibility(_, _, _, _, _, _) => Shown(s, op)
    case SetMeta(_, _, _, _, _, _, _) => Named(s, op)
  }

  function Created(s: State, op: Op): Outcome
    requires op.Create?
  {
    if !IdOk(op.id) || !AboutOk(op.assetType, op.about) || !ContentOk(op.assetType, op.content) || !NoteOk(op.note)
    then Refused(s, Invalid)
    else if FindHead(s, op.id).Some? then Refused(s, Invalid)
    else if op.content.bytes > MAX_CONTENT_BYTES then Refused(s, Invalid)
    else if op.id in s.heads || Key(op.id, 1) in s.versions then Refused(s, Constraint)
    else
      var createdAt := if op.createdAt.Some? then op.createdAt.value else op.now;
      Written(s.(heads := s.heads[op.id := Head(op.assetType, op.user, op.visibility, 1,
                                         Stored(op.assetType, op.about), createdAt, op.now)],
                 versions := s.versions[Key(op.id, 1) := Version(op.content, op.now, op.user, op.note)]),
              op.id, op.assetType, op.user)
  }

  /** SQL's COALESCE(last_seen_version_number, ?) on one subscriber's row. */
  function SeenIfUnset(subs: map<Subscriber, Subscription>, who: Subscriber, number: nat)
    : map<Subscriber, Subscription>
  {
    if who in subs && subs[who].lastSeen.None? then subs[who := subs[who].(lastSeen := Some(number))] else subs
  }

  predicate UpdateOk(op: Op)
    requires op.Update?
  {
    && AboutOk(op.assetType, op.about) && ContentOk(op.assetType, op.content)
    && NoteOk(op.note) && ExpectedOk(op.expected)
  }

  function Updated(s: State, op: Op): Outcome
    requires op.Update?
  {
    var owned := Owned(s, op.id, op.assetType, op.user);
    if owned.Err? then Refused(s, owned.error)
    else
      var head := owned.value;
      if !UpdateOk(op) then Refused(s, Invalid)
      else if Stale(head, op.expected) then Refused(s, Conflict(head.current))
      else if op.content.bytes > MAX_CONTENT_BYTES then Refused(s, Invalid)
      else if Key(op.id, head.current + 1) in s.versions then Refused(s, Constraint)
      else
        var next := head.current + 1;
        var visibility := if op.newVisibility.Some? then op.newVisibility.value else head.visibility;
        Written(State(
                  s.heads[op.id := head.(visibility := visibility, current := next,
                                         about := Stored(op.assetType, op.about), updatedAt := op.now)],
                  s.versions[Key(op.id, next) := Version(op.content, op.now, op.user, op.note)],
                  SeenIfUnset(s.subscriptions, Subscriber(op.id, op.user), next)),
                op.id, op.assetType, op.user)
  }

  /** Deleting a head deletes its versions and subscriptions with it. */
  function Deleted(s: State, id: AssetId): State {
    State(map other | other in s.heads && other != id :: s.heads[other],
          map k | k in s.versions && k.id != id :: s.versions[k],
          map w | w in s.subscriptions && w.id != id :: s.subscriptions[w])
  }

  function Trimmed(d: Description): Description {
    d.(blanks := 0, blankBytes := 0)
  }

  /** A fork is a create whose record is the source's, read as this user may read it. */
  function Forked(s: State, op: Op): Outcome
    requires op.Fork?
  {
    var source := ReadContent(s, op.id, op.assetType, Some(op.user), None);
    if source.Err? then Refused(s, source.error) else Created(s, ForkRecord(op, source.value))
  }

  function ForkRecord(op: Op, source: Found): (create: Op)
    requires op.Fork?
    ensures create.Create?
  {
    Create(op.newId, op.assetType, op.user,
           if op.newVisibility.Some? then op.newVisibility.value else Private,
           source.head.about.(name := if op.newName.Some? then op.newName.value
                                      else source.head.about.name + " Copy",
                              description := Trimmed(source.head.about.description)),
           source.version.content, Some(source.head.createdAt),
           if op.note.Some? then op.note else Some("Forked from " + op.id), op.now)
  }

  function Removed(s: State, op: Op): Outcome
    requires op.Delete?
  {
    var owned := Owned(s, op.id, op.assetType, op.user);
    if owned.Err? then Refused(s, owned.error)
    else Outcome(Deleted(s, op.id), Context(s, op.id, op.assetType, Some(op.user), None))
  }

  function Subscribed(s: State, op: Op): Outcome
    requires op.Subscribe?
  {
    var typed := Typed(s, op.id, op.assetType);
    if typed.Err? then Refused(s, typed.error)
    else if typed.value.visibility != Public && typed.value.owner != op.user then Refused(s, Forbidden)
    else
      var row := Subscription(op.now, Some(typed.value.current));
      Written(s.(subscriptions := s.subscriptions[Subscriber(op.id, op.user) := row]), op.id, op.assetType, op.user)
  }

  function Unsubscribed(s: State, op: Op): Outcome
    requires op.Unsubscribe?
  {
    var typed := Typed(s, op.id, op.assetType);
    if typed.Err? then Refused(s, typed.error)
    else if typed.value.visibility != Public && typed.value.owner != op.user then Refused(s, Forbidden)
    else Written(s.(subscriptions := s.subscriptions - {Subscriber(op.id, op.user)}), op.id, op.assetType, op.user)
  }

  function Noted(s: State, op: Op): Outcome
    requires op.EditNote?
  {
    var owned := Owned(s, op.id, op.assetType, op.user);
    if owned.Err? then Refused(s, owned.error)
    else if op.number <= 0 then Refused(s, Invalid)
    else
      var k := Key(op.id, op.number);
      if k !in s.versions then Refused(s, NotFound)
      else if !NoteOk(op.note) then Refused(s, Invalid)
      else
        var s' := s.(versions := s.versions[k := s.versions[k].(note := op.note)]);
        Outcome(s', Context(s', op.id, op.assetType, Some(op.user), Some(op.number)))
  }

  function Shown(s: State, op: Op): Outcome
    requires op.SetVisibility?
  {
    var owned := Owned(s, op.id, op.assetType, op.user);
    if owned.Err? then Refused(s, owned.error)
    else if !ExpectedOk(op.expected) then Refused(s, Invalid)
    else if Stale(owned.value, op.expected) then Refused(s, Conflict(owned.value.current))
    else
      var head := owned.value.(visibility := op.visibility, updatedAt := op.now);
      Written(s.(heads := s.heads[op.id := head]), op.id, op.assetType, op.user)
  }

  function Named(s: State, op: Op): Outcome
    requires op.SetMeta?
  {
    var owned := Owned(s, op.id, op.assetType, op.user);
    if owned.Err? then Refused(s, owned.error)
    else if !MetaOk(op.name, op.description, op.tags) then Refused(s, Invalid)
    else
      var about := owned.value.about.(name := op.name, description := op.description, tags := op.tags);
      var head := owned.value.(about := about, updatedAt := op.now);
      Written(s.(heads := s.heads[op.id := head]), op.id, op.assetType, op.user)
  }

  /** The head an administrator's call is about. */
  function ManagedHead(s: State, id: AssetId, hint: Option<AssetType>): Option<Head> {
    var head := FindHead(s, id);
    if head.Some? && hint.Some? && head.value.assetType != hint.value then None else head
  }

  function After(s: State, call: Call): State {
    match call
    case By(op) => Performed(s, op).state
    case ManageVisibility(id, hint, visibility, now) =>
      var head := ManagedHead(s, id, hint);
      if head.None? then s
      else s.(heads := s.heads[id := head.value.(visibility := visibility, updatedAt := now)])
    case ManageDelete(id, hint) => if ManagedHead(s, id, hint).None? then s else Deleted(s, id)
    case PurgeAll => Empty
  }

  function Run(calls: seq<Call>): State {
    if calls == [] then Empty else After(Run(Front(calls)), Last(calls))
  }

  /** What an administrator is shown of an asset; a stored envelope cannot be shown. */
  function GetManagedAsset(s: State, id: AssetId, hint: Option<AssetType>): Result<Option<Found>, Failure> {
    var head := ManagedHead(s, id, hint);
    if head.None? || Key(id, head.value.current) !in s.versions then Ok(None)
    else
      var version := s.versions[Key(id, head.value.current)];
      if version.content.shape != Proper then Err(Invalid)
      else Ok(Some(Found(head.value, head.value.current, version, None)))
  }

  // ---------------------------------------------------------------------------------------
  // What every call keeps
  // ---------------------------------------------------------------------------------------

  /** The stored versions of an asset are exactly 1 to its current one. */
  ghost predicate VersionsExact(s: State) {
    && (forall id :: id in s.heads ==> s.heads[id].current >= 1)
    && (forall k :: k in s.versions <==> k.id in s.heads && 1 <= k.number <= s.heads[k.id].current)
  }

  ghost predicate ContentsOk(s: State) {
    forall k :: k in s.versions && k.id in s.heads ==>
      ContentOk(s.heads[k.id].assetType, s.versions[k].content) && s.versions[k].content.bytes <= MAX_CONTENT_BYTES
  }

  /** Every subscriber of an existing asset has seen one of its versions. */
  ghost predicate SubscriptionsSeen(s: State) {
    forall w :: w in s.subscriptions ==>
      && w.id in s.heads && s.subscriptions[w].lastSeen.Some?
      && 1 <= s.subscriptions[w].lastSeen.value <= s.heads[w.id].current
  }

  /** Whatever is said of an asset would be accepted again. */
  ghost predicate HeadsOk(s: State) {
    forall id :: id in s.heads ==>
      && AboutOk(s.heads[id].assetType, s.heads[id].about)
      && (s.heads[id].assetType != Variant ==> s.heads[id].about.details.None?)
  }

  ghost predicate Consistent(s: State) {
    VersionsExact(s) && ContentsOk(s) && SubscriptionsSeen(s) && HeadsOk(s)
  }

  /** The same assets at the same versions, with the same contents. */
  ghost predicate SameVersions(s: State, s': State) {
    && s'.heads.Keys == s.heads.Keys && s'.versions.Keys == s.versions.Keys
    && (forall id :: id in s.heads ==>
          s'.heads[id].current == s.heads[id].current && s'.heads[id].assetType == s.heads[id].assetType)
    && (forall k :: k in s.versions ==> s'.versions[k].content == s.versions[k].content)
  }

  lemma HeadPutKeeps(s: State, id: AssetId, head: Head)
    requires HeadsOk(s) && AboutOk(head.assetType, head.about)
    requires head.assetType != Variant ==> head.about.details.None?
    ensures HeadsOk(s.(heads := s.heads[id := head]))
  {
    hide AboutOk, Stored;
  }

  lemma SameHeadsOk(s: State, s': State)
    requires HeadsOk(s) && s'.heads == s.heads
    ensures HeadsOk(s')
  {
    hide AboutOk, Stored;
  }

  lemma WriteKeepsHeads(s: State, op: Op)
    requires Consistent(s) && (op.Create? || op.Update? || op.SetVisibility? || op.SetMeta?)
    ensures HeadsOk(Performed(s, op).state)
  {
    hide Context, ContentOk, NoteOk, IdOk;
    var s' := Performed(s, op).state;
    if s' != s {
      HeadPutKeeps(s, op.id, s'.heads[op.id]);
    }
    hide AboutOk;
  }

  lemma EditKeeps(s: State, s': State)
    requires Consistent(s) && SameVersions(s, s') && SubscriptionsSeen(s') && HeadsOk(s')
    ensures Consistent(s')
  {
    hide HeadsOk;
    assert VersionsExact(s') by {
      forall k ensures k in s'.versions <==> k.id in s'.heads && 1 <= k.number <= s'.heads[k.id].current {
        assert k in s'.versions <==> k in s.versions;
      }
    }
  }

  /** The next version of an asset, or the first of a new one, put in with its head. */
  lemma NextVersionKeeps(s: State, id: AssetId, head: Head, version: Version)
    requires Consistent(s) && head.current == (if id in s.heads then s.heads[id].current + 1 else 1)
    requires id in s.heads ==> head.assetType == s.heads[id].assetType
    requires ContentOk(head.assetType, version.content) && version.content.bytes <= MAX_CONTENT_BYTES
    requires HeadsOk(s.(heads := s.heads[id := head]))
    ensures Consistent(State(s.heads[id := head], s.versions[Key(id, head.current) := version], s.subscriptions))
  {
    hide AboutOk, Stored, ContentOk;
    var s' := State(s.heads[id := head], s.versions[Key(id, head.current) := version], s.subscriptions);
    SameHeadsOk(s.(heads := s.heads[id := head]), s');
    hide HeadsOk;
    assert VersionsExact(s');
    assert ContentsOk(s') && SubscriptionsSeen(s');
  }

  lemma CreateKeeps(s: State, op: Op)
    requires Consistent(s) && op.Create?
    ensures Consistent(Created(s, op).state)
  {
    hide Context, AboutOk, ContentOk, NoteOk, IdOk, Consistent;
    CurrentExists(s, op.id);
    var s' := Created(s, op).state;
    if s' != s {
      WriteKeepsHeads(s, op);
      SameHeadsOk(s', s.(heads := s'.heads));
      NextVersionKeeps(s, op.id, s'.heads[op.id], s'.versions[Key(op.id, 1)]);
    }
  }

  lemma UpdateKeeps(s: State, op: Op)
    requires Consistent(s) && op.Update?
    ensures Consistent(Updated(s, op).state)
  {
    hide Context, AboutOk, ContentOk, NoteOk, Consistent;
    CurrentExists(s, op.id);
    var s' := Updated(s, op).state;
    if s' != s {
      WriteKeepsHeads(s, op);
      SameHeadsOk(s', s.(heads := s'.heads));
      var head := s'.heads[op.id];
      NextVersionKeeps(s, op.id, head, s'.versions[Key(op.id, head.current)]);
    }
  }

  lemma DeleteKeeps(s: State, id: AssetId)
    requires Consistent(s)
    ensures Consistent(Deleted(s, id))
  {
  }

  lemma SubscribeKeeps(s: State, op: Op)
    requires Consistent(s) && op.Subscribe?
    ensures Consistent(Subscribed(s, op).state)
  {
    hide Context, HeadsOk;
    assert Subscribed(s, op).state.heads == s.heads;
    SameHeadsOk(s, Subscribed(s, op).state);
    EditKeeps(s, Subscribed(s, op).state);
  }

  lemma UnsubscribeKeeps(s: State, op: Op)
    requires Consistent(s) && op.Unsubscribe?
    ensures Consistent(Unsubscribed(s, op).state)
  {
    hide Context, HeadsOk;
    assert Unsubscribed(s, op).state.heads == s.heads;
    SameHeadsOk(s, Unsubscribed(s, op).state);
    EditKeeps(s, Unsubscribed(s, op).state);
  }

  lemma NoteKeeps(s: State, op: Op)
    requires Consistent(s) && op.EditNote?
    ensures Consistent(Noted(s, op).state)
  {
    hide Context, HeadsOk;
    assert Noted(s, op).state.heads == s.heads;
    SameHeadsOk(s, Noted(s, op).state);
    var s' := Noted(s, op).state;
    assert SameVersions(s, s') && SubscriptionsSeen(s');
    EditKeeps(s, Noted(s, op).state);
  }

  /** A head put in place of one of the same type and current version. */
  lemma HeadEditKeeps(s: State, id: AssetId, head: Head)
    requires Consistent(s) && id in s.heads && head.current == s.heads[id].current
    requires head.assetType == s.heads[id].assetType && HeadsOk(s.(heads := s.heads[id := head]))
    ensures Consistent(s.(heads := s.heads[id := head]))
  {
    hide HeadsOk;
    EditKeeps(s, s.(heads := s.heads[id := head]));
  }

  lemma ShowKeeps(s: State, op: Op)
    requires Consistent(s) && op.SetVisibility?
    ensures Consistent(Shown(s, op).state)
  {
    hide Context, Consistent;
    WriteKeepsHeads(s, op);
    if Shown(s, op).state != s {
      HeadEditKeeps(s, op.id, Shown(s, op).state.heads[op.id]);
    }
  }

  lemma NameKeeps(s: State, op: Op)
    requires Consistent(s) && op.SetMeta?
    ensures Consistent(Named(s, op).state)
  {
    hide Context, Consistent;
    WriteKeepsHeads(s, op);
    if Named(s, op).state != s {
      HeadEditKeeps(s, op.id, Named(s, op).state.heads[op.id]);
    }
  }

  lemma WriteKeeps(s: State, op: Op)
    requires Consistent(s)
    ensures Consistent(Performed(s, op).state)
  {
    hide Consistent;
    match op
    case Create(_, _, _, _, _, _, _, _, _) => CreateKeeps(s, op);
    case Update(_, _, _, _, _, _, _, _, _) => UpdateKeeps(s, op);
    case Delete(_, _, _) => DeleteKeeps(s, op.id);
    case Subscribe(_, _, _, _) => SubscribeKeeps(s, op);
    case Unsubscribe(_, _, _) => UnsubscribeKeeps(s, op);
    case EditNote(_, _, _, _, _) => NoteKeeps(s, op);
    case Fork(_, _, _, _, _, _, _, _) =>
      var source := ReadContent(s, op.id, op.assetType, Some(op.user), None);
      if source.Ok? {
        CreateKeeps(s, ForkRecord(op, source.value));
      }
    case SetVisibility(_, _, _, _, _, _) => ShowKeeps(s, op);
    case SetMeta(_, _, _, _, _, _, _) => NameKeeps(s, op);
  }

  lemma ManagedVisibilityKeeps(s: State, call: Call)
    requires Consistent(s) && call.ManageVisibility?
    ensures Consistent(After(s, call))
  {
    hide AboutOk, Stored;
    var head := ManagedHead(s, call.id, call.hint);
    if head.Some? {
      var shown := head.value.(visibility := call.visibility, updatedAt := call.now);
      HeadPutKeeps(s, call.id, shown);
      HeadEditKeeps(s, call.id, shown);
    }
    hide Consistent;
  }

  lemma StepKeeps(s: State, call: Call)
    requires Consistent(s)
    ensures Consistent(After(s, call))
  {
    hide Consistent;
    match call
    case By(op) => WriteKeeps(s, op);
    case ManageVisibility(_, _, _, _) => ManagedVisibilityKeeps(s, call);
    case ManageDelete(id, _) => DeleteKeeps(s, id);
    case PurgeAll => EmptyConsistent();
  }

  lemma EmptyConsistent()
    ensures Consistent(Empty)
  {
  }

  lemma {:induction false} RunKeeps(calls: seq<Call>)
    ensures Consistent(Run(calls))
  {
    if calls != [] {
      RunKeeps(Front(calls));
      StepKeeps(Run(Front(calls)), Last(calls));
    }
  }

  // ---------------------------------------------------------------------------------------
  // Reads in a valid store
  // ---------------------------------------------------------------------------------------

  predicate MayView(head: Head, viewer: Option<UserId>) {
    head.visibility == Public || Owns(viewer, head)
  }

  /** The second permission test decides nothing, whatever the store holds. */
  lemma SecondTestIsIdle(s: State, id: AssetId, assetType: AssetType, viewer: Option<UserId>, number: Option<int>)
    ensures Context(s, id, assetType, viewer, number) == ContextOnce(s, id, assetType, viewer, number)
  {
  }

  /** A version is found exactly when the viewer may see the asset and the number is one of 1 to current. */
  lemma FoundIffVisible(s: State, id: AssetId, assetType: AssetType, viewer: Option<UserId>, number: Option<int>)
    requires Consistent(s)
    ensures Context(s, id, assetType, viewer, number).Ok? <==>
            && id in s.heads && s.heads[id].assetType == assetType && MayView(s.heads[id], viewer)
            && (number.Some? ==> 1 <= number.value <= s.heads[id].current)
    ensures Context(s, id, assetType, viewer, number).Ok? ==>
              var found := Context(s, id, assetType, viewer, number).value;
              && found.head == s.heads[id]
              && found.number == (if number.None? then s.heads[id].current else number.value)
              && found.version == s.versions[Key(id, found.number)]
              && (found.subscription.Some? <==> viewer.Some? && Subscriber(id, viewer.value) in s.subscriptions)
              && (found.subscription.Some? ==>
                    found.subscription.value == s.subscriptions[Subscriber(id, viewer.value)]
                    && found.subscription.value.lastSeen.Some?)
    ensures Context(s, id, assetType, viewer, number).Err? ==>
              Context(s, id, assetType, viewer, number).error ==
              if id !in s.heads || s.heads[id].assetType != assetType then NotFound
              else if !MayView(s.heads[id], viewer) then Forbidden
              else if number.Some? && number.value <= 0 then Invalid else NotFound
  {
    if id in s.heads {
      assert Key(id, s.heads[id].current) in s.versions;
      if number.Some? && number.value > 0 {
        assert Key(id, number.value) in s.versions <==> number.value <= s.heads[id].current;
      }
    }
  }

  /** Reading content needs, besides, that the stored payload is no envelope; a recipe's never is. */
  lemma ContentReadIff(s: State, id: AssetId, assetType: AssetType, viewer: Option<UserId>, number: Option<int>)
    requires Consistent(s)
    ensures ReadContent(s, id, assetType, viewer, number).Ok? <==>
            && Context(s, id, assetType, viewer, number).Ok?
            && Context(s, id, assetType, viewer, number).value.version.content.shape != Envelope
    ensures assetType == ModdingRecipe ==>
              ReadContent(s, id, assetType, viewer, number) == Context(s, id, assetType, viewer, number)
  {
    FoundIffVisible(s, id, assetType, viewer, number);
  }

  // ---------------------------------------------------------------------------------------
  // What each write does
  // ---------------------------------------------------------------------------------------

  /** An asset of the caller's, of the type asked for. */
  predicate Mine(s: State, op: Op) {
    op.id in s.heads && s.heads[op.id].assetType == op.assetType && s.heads[op.id].owner == op.user
  }

  predicate Visible(s: State, op: Op) {
    op.id in s.heads && s.heads[op.id].assetType == op.assetType && MayView(s.heads[op.id], Some(op.user))
  }

  predicate Readable(s: State, op: Op) {
    Visible(s, op) &&
    var k := Key(op.id, s.heads[op.id].current);
    k in s.versions && s.versions[k].content.shape == Proper
  }

  predicate AsExpected(s: State, op: Op)
    requires (op.Update? || op.SetVisibility?) && op.id in s.heads
  {
    op.expected.Some? ==> op.expected.value == s.heads[op.id].current
  }

  function ForkName(s: State, op: Op): string
    requires op.Fork? && op.id in s.heads
  {
    if op.newName.Some? then op.newName.value else s.heads[op.id].about.name + " Copy"
  }

  /** A fork takes over description, tags and details, but for the blanks around the description. */
  function ForkAbout(s: State, op: Op): About
    requires op.Fork? && op.id in s.heads
  {
    var about := s.heads[op.id].about;
    about.(name := ForkName(s, op), description := about.description.(blanks := 0, blankBytes := 0))
  }

  /** The calls that may pass, by what the caller sees of the store. */
  ghost predicate Allowed(s: State, op: Op) {
    match op
    case Create(id, assetType, _, _, about, content, _, note, _) =>
      && id !in s.heads && IdOk(id) && AboutOk(assetType, about) && NoteOk(note)
      && ContentOk(assetType, content) && content.bytes <= MAX_CONTENT_BYTES
    case Update(_, assetType, _, _, _, about, content, note, _) =>
      && Mine(s, op) && AsExpected(s, op) && AboutOk(assetType, about) && NoteOk(note)
      && ContentOk(assetType, content) && content.bytes <= MAX_CONTENT_BYTES
    case Delete(_, _, _) => Mine(s, op)
    case Subscribe(_, _, _, _) => Visible(s, op)
    case Unsubscribe(_, _, _) => Visible(s, op)
    case EditNote(id, _, _, number, note) =>
      Mine(s, op) && 1 <= number <= s.heads[id].current && NoteOk(note)
    case Fork(id, _, _, newId, _, _, note, _) =>
      && Readable(s, op) && newId !in s.heads && IdOk(newId) && NameOk(ForkName(s, op))
      && NoteOk(if note.Some? then note else Some("Forked from " + id))
    case SetVisibility(_, _, _, _, _, _) => Mine(s, op) && AsExpected(s, op)
    case SetMeta(_, _, _, name, description, tags, _) => Mine(s, op) && MetaOk(name, description, tags)
  }

  /** One head, or one version, put in place of what was there; the rest as it was. */
  ghost predicate HeadPut(s: State, s': State, id: AssetId, head: Head) {
    && id in s'.heads && s'.heads[id] == head
    && (forall other :: other != id ==> (other in s'.heads <==> other in s.heads))
    && (forall other :: other in s.heads && other != id ==> s'.heads[other] == s.heads[other])
  }

  ghost predicate VersionPut(s: State, s': State, k: Key, version: Version) {
    && k in s'.versions && s'.versions[k] == version
    && (forall other :: other != k ==> (other in s'.versions <==> other in s.versions))
    && (forall other :: other in s.versions && other != k ==> s'.versions[other] == s.versions[other])
  }

  /** An asset taken out with its versions and subscriptions, and nothing else. */
  ghost predicate Gone(s: State, s': State, id: AssetId) {
    && s'.heads == s.heads - {id}
    && (forall k :: k in s'.versions <==> k in s.versions && k.id != id)
    && (forall k :: k in s'.versions ==> s'.versions[k] == s.versions[k])
    && (forall w :: w in s'.subscriptions <==> w in s.subscriptions && w.id != id)
    && (forall w :: w in s'.subscriptions ==> s'.subscriptions[w] == s.subscriptions[w])
  }

  /** Name, description and tags as given, and details for a variant only. */
  ghost function Recorded(assetType: AssetType, about: About): About {
    match assetType
    case Variant => About(about.name, about.description, about.tags, about.details)
    case Component => About(about.name, about.description, about.tags, None)
    case ModdingRecipe => About(about.name, about.description, about.tags, None)
  }

  /** What a call that passes makes of the store. */
  ghost predicate Made(s: State, op: Op, s': State)
    requires Allowed(s, op)
  {
    && (op.Subscribe? || op.Unsubscribe? || op.Delete? || s'.subscriptions == s.subscriptions)
    && (op.Create? || op.Update? || op.Fork? || op.EditNote? || op.Delete? || s'.versions == s.versions)
    && match op
       case Create(id, assetType, user, visibility, about, content, createdAt, note, now) =>
         && HeadPut(s, s', id, Head(assetType, user, visibility, 1, Recorded(assetType, about),
                                    if createdAt.Some? then createdAt.value else now, now))
         && VersionPut(s, s', Key(id, 1), Version(content, now, user, note)) && Key(id, 1) !in s.versions
       case Update(id, assetType, user, newVisibility, _, about, content, note, now) =>
         var head := s.heads[id];
         var k := Key(id, head.current + 1);
         && HeadPut(s, s', id, head.(visibility := if newVisibility.Some? then newVisibility.value
                                                   else head.visibility,
                                     about := Recorded(assetType, about),
                                     current := head.current + 1, updatedAt := now))
         && VersionPut(s, s', k, Version(content, now, user, note)) && k !in s.versions
       case Delete(id, _, _) =>
         Gone(s, s', id)
       case Subscribe(id, _, user, now) =>
         && s'.heads == s.heads
         && s'.subscriptions == s.subscriptions[Subscriber(id, user) := Subscription(now, Some(s.heads[id].current))]
       case Unsubscribe(id, _, user) =>
         s'.heads == s.heads && s'.subscriptions == s.subscriptions - {Subscriber(id, user)}
       case EditNote(id, _, _, number, note) =>
         var k := Key(id, number);
         s'.heads == s.heads && k in s.versions && VersionPut(s, s', k, s.versions[k].(note := note))
       case Fork(id, _, user, newId, _, newVisibility, note, now) =>
         var source := s.versions[Key(id, s.heads[id].current)];
         && HeadPut(s, s', newId, s.heads[id].(owner := user, current := 1, updatedAt := now,
                                               about := ForkAbout(s, op),
                                               visibility := if newVisibility.Some? then newVisibility.value
                                                             else Private))
         && VersionPut(s, s', Key(newId, 1),
                       Version(source.content, now, user, if note.Some? then note else Some("Forked from " + id)))
         && Key(newId, 1) !in s.versions
       case SetVisibility(id, _, _, visibility, _, now) =>
         HeadPut(s, s', id, s.heads[id].(visibility := visibility, updatedAt := now))
       case SetMeta(id, _, _, name, description, tags, now) =>
         var about := s.heads[id].about.(name := name, description := description, tags := tags);
         HeadPut(s, s', id, s.heads[id].(about := about, updatedAt := now))
  }

  /** The caller is told the head and the version the call was about. */
  ghost predicate Told(s: State, op: Op, found: Found) {
    var id := if op.Fork? then op.newId else op.id;
    && id in s.heads && found.head == s.heads[id]
    && found.number == (if op.EditNote? then op.number else s.heads[id].current)
    && Key(id, found.number) in s.versions && found.version == s.versions[Key(id, found.number)]
  }

  /** The number a caller expects is one, but not that of the current version. */
  ghost predicate Outdated(expected: Option<int>, current: nat) {
    match expected
    case Some(number) => number > 0 && number != current
    case None => false
  }

  /** Why a call does not pass. */
  ghost function FailureOf(s: State, op: Op): Failure {
    if op.Create? then Invalid
    else if op.id !in s.heads || s.heads[op.id].assetType != op.assetType then NotFound
    else
      var head := s.heads[op.id];
      match op
      case Subscribe(_, _, _, _) => Forbidden
      case Unsubscribe(_, _, _) => Forbidden
      case Fork(_, _, user, _, _, _, _, _) =>
        if head.visibility == Private && head.owner != user then Forbidden else Invalid
      case _ =>
        if head.owner != op.user then Forbidden
        else match op
          case Update(_, assetType, _, _, expected, about, content, note, _) =>
            if AboutOk(assetType, about) && ContentOk(assetType, content) && NoteOk(note)
               && Outdated(expected, head.current)
            then Conflict(head.current) else Invalid
          case SetVisibility(_, _, _, _, expected, _) =>
            if Outdated(expected, head.current) then Conflict(head.current) else Invalid
          case EditNote(_, _, _, number, _) => if number > head.current then NotFound else Invalid
          case _ => Invalid
  }

  /**
   * A call passes exactly when it is allowed; then it makes its one change and tells of the result,
   * or, for a delete, of what was there. One that does not pass changes nothing and says why.
   */
  ghost predicate Does(s: State, op: Op, s': State, result: Result<Found, Failure>) {
    && (result.Ok? <==> Allowed(s, op))
    && (result.Ok? ==> Made(s, op, s') && Told(if op.Delete? then s else s', op, result.value))
    && (result.Err? ==> s' == s)
    && (result.Err? ==> result.error == FailureOf(s, op))
  }

  lemma CurrentExists(s: State, id: AssetId)
    requires Consistent(s)
    ensures forall n: nat :: Key(id, n) in s.versions ==> id in s.heads && 1 <= n <= s.heads[id].current
    ensures id in s.heads ==> s.heads[id].current >= 1
    ensures id in s.heads ==> forall n: nat :: 1 <= n <= s.heads[id].current ==> Key(id, n) in s.versions
    ensures forall w :: w in s.subscriptions ==> s.subscriptions[w].lastSeen.Some?
    ensures id in s.heads ==> AboutOk(s.heads[id].assetType, s.heads[id].about)
                              && (s.heads[id].assetType != Variant ==> s.heads[id].about.details.None?)
    ensures forall n: nat :: Key(id, n) in s.versions ==>
              ContentOk(s.heads[id].assetType, s.versions[Key(id, n)].content)
              && s.versions[Key(id, n)].content.bytes <= MAX_CONTENT_BYTES
  {
    hide AboutOk, Stored, ContentOk;
  }

  lemma CreateDoes(s: State, op: Op)
    requires Consistent(s) && op.Create?
    ensures Does(s, op, Created(s, op).state, Created(s, op).result)
  {
    hide Context, Consistent;
    CurrentExists(s, op.id);
    CreateKeeps(s, op);
    FoundIffVisible(Created(s, op).state, op.id, op.assetType, Some(op.user), None);
  }

  lemma UpdateDoes(s: State, op: Op)
    requires Consistent(s) && op.Update?
    ensures Does(s, op, Updated(s, op).state, Updated(s, op).result)
  {
    hide Context, Consistent;
    CurrentExists(s, op.id);
    UpdateKeeps(s, op);
    FoundIffVisible(Updated(s, op).state, op.id, op.assetType, Some(op.user), None);
  }

  lemma DeleteDoes(s: State, op: Op)
    requires Consistent(s) && op.Delete?
    ensures Does(s, op, Removed(s, op).state, Removed(s, op).result)
  {
    hide Context, Consistent;
    CurrentExists(s, op.id);
    FoundIffVisible(s, op.id, op.assetType, Some(op.user), None);
  }

  lemma SubscribeDoes(s: State, op: Op)
    requires Consistent(s) && op.Subscribe?
    ensures Does(s, op, Subscribed(s, op).state, Subscribed(s, op).result)
  {
    hide Context, Consistent;
    CurrentExists(s, op.id);
    SubscribeKeeps(s, op);
    FoundIffVisible(Subscribed(s, op).state, op.id, op.assetType, Some(op.user), None);
  }

  lemma UnsubscribeDoes(s: State, op: Op)
    requires Consistent(s) && op.Unsubscribe?
    ensures Does(s, op, Unsubscribed(s, op).state, Unsubscribed(s, op).result)
  {
    hide Context, Consistent;
    CurrentExists(s, op.id);
    UnsubscribeKeeps(s, op);
    FoundIffVisible(Unsubscribed(s, op).state, op.id, op.assetType, Some(op.user), None);
  }

  lemma NoteDoes(s: State, op: Op)
    requires Consistent(s) && op.EditNote?
    ensures Does(s, op, Noted(s, op).state, Noted(s, op).result)
  {
    hide Context, Consistent;
    CurrentExists(s, op.id);
    NoteKeeps(s, op);
    FoundIffVisible(Noted(s, op).state, op.id, op.assetType, Some(op.user), Some(op.number));
  }

  lemma ForkDoes(s: State, op: Op)
    requires Consistent(s) && op.Fork?
    ensures Does(s, op, Forked(s, op).state, Forked(s, op).result)
  {
    hide Context, Created, Consistent;
    CurrentExists(s, op.id);
    ContentReadIff(s, op.id, op.assetType, Some(op.user), None);
    FoundIffVisible(s, op.id, op.assetType, Some(op.user), None);
    var source := ReadContent(s, op.id, op.assetType, Some(op.user), None);
    if source.Ok? {
      CreateDoes(s, ForkRecord(op, source.value));
    }
  }

  lemma ShowDoes(s: State, op: Op)
    requires Consistent(s) && op.SetVisibility?
    ensures Does(s, op, Shown(s, op).state, Shown(s, op).result)
  {
    hide Context, Consistent;
    CurrentExists(s, op.id);
    ShowKeeps(s, op);
    FoundIffVisible(Shown(s, op).state, op.id, op.assetType, Some(op.user), None);
  }

  lemma NameDoes(s: State, op: Op)
    requires Consistent(s) && op.SetMeta?
    ensures Does(s, op, Named(s, op).state, Named(s, op).result)
  {
    hide Context, Consistent;
    CurrentExists(s, op.id);
    NameKeeps(s, op);
    FoundIffVisible(Named(s, op).state, op.id, op.assetType, Some(op.user), None);
  }

  lemma WriteDoes(s: State, op: Op)
    requires Consistent(s)
    ensures Does(s, op, Performed(s, op).state, Performed(s, op).result)
  {
    hide Does;
    match op
    case Create(_, _, _, _, _, _, _, _, _) => CreateDoes(s, op);
    case Update(_, _, _, _, _, _, _, _, _) => UpdateDoes(s, op);
    case Delete(_, _, _) => DeleteDoes(s, op);
    case Subscribe(_, _, _, _) => SubscribeDoes(s, op);
    case Unsubscribe(_, _, _) => UnsubscribeDoes(s, op);
    case EditNote(_, _, _, _, _) => NoteDoes(s, op);
    case Fork(_, _, _, _, _, _, _, _) => ForkDoes(s, op);
    case SetVisibility(_, _, _, _, _, _) => ShowDoes(s, op);
    case SetMeta(_, _, _, _, _, _, _) => NameDoes(s, op);
  }

  /** An asset of that id, of the type hinted at if there is a hint. */
  predicate Manageable(s: State, id: AssetId, hint: Option<AssetType>) {
    id in s.heads && (hint.Some? ==> s.heads[id].assetType == hint.value)
  }

  /** What an administrator's call makes of the store: it needs the asset to be there, and nothing else. */
  ghost predicate Manages(s: State, call: Call, s': State) {
    match call
    case By(_) => true
    case ManageVisibility(id, hint, visibility, now) =>
      if !Manageable(s, id, hint) then s' == s
      else HeadPut(s, s', id, s.heads[id].(visibility := visibility, updatedAt := now))
           && s'.versions == s.versions && s'.subscriptions == s.subscriptions
    case ManageDelete(id, hint) => if !Manageable(s, id, hint) then s' == s else Gone(s, s', id)
    case PurgeAll => s' == Empty
  }

  lemma CallDoes(s: State, call: Call)
    requires Consistent(s)
    ensures if call.By? then Does(s, call.op, After(s, call), Performed(s, call.op).result)
            else Manages(s, call, After(s, call))
  {
    hide Consistent, Does, Performed;
    if call.By? {
      WriteDoes(s, call.op);
    } else if !call.PurgeAll? {
      CurrentExists(s, call.id);
    }
  }

  /**
   * Of all the calls that fail only one has written before: an administrator's change of the visibility
   * of an asset whose payload is an envelope, which cannot be shown afterwards.
   */
  lemma ManagedShownIff(s: State, id: AssetId, hint: Option<AssetType>, visibility: Visibility, now: int)
    requires Consistent(s)
    ensures var s' := After(s, ManageVisibility(id, hint, visibility, now));
            var shown := GetManagedAsset(s', id, hint);
            && (shown == Ok(None) <==> !Manageable(s, id, hint))
            && (shown.Err? <==> Manageable(s, id, hint)
                                && s.versions[Key(id, s.heads[id].current)].content.shape == Envelope)
            && (shown.Ok? && shown.value.Some? ==>
                  shown.value.value.head == s.heads[id].(visibility := visibility, updatedAt := now)
                  && shown.value.value.version == s.versions[Key(id, s.heads[id].current)])
  {
    CurrentExists(s, id);
  }

  /** What was just created can be read back by its owner exactly when it is no envelope. */
  lemma CreatedReadableIffProper(s: State, op: Op)
    requires Consistent(s) && op.Create? && Created(s, op).result.Ok?
    ensures var s' := Created(s, op).state;
            ReadContent(s', op.id, op.assetType, Some(op.user), None).Ok? <==> op.content.shape == Proper
    ensures op.assetType == ModdingRecipe ==> op.content.shape == Proper
  {
    CreateKeeps(s, op);
    ContentReadIff(Created(s, op).state, op.id, op.assetType, Some(op.user), None);
    FoundIffVisible(Created(s, op).state, op.id, op.assetType, Some(op.user), None);
    hide Context;
  }

  // ---------------------------------------------------------------------------------------
  // Whole runs
  // ---------------------------------------------------------------------------------------

  ghost predicate SameRecord(v: Version, v': Version) {
    v' == v.(note := v'.note)
  }

  /** The asset is there at every moment of a continuation. */
  ghost predicate Stays(calls: seq<Call>, more: seq<Call>, id: AssetId)
    decreases |more|
  {
    id in Run(calls + more).heads && (more != [] ==> Stays(calls, Front(more), id))
  }

  lemma Continues(calls: seq<Call>, more: seq<Call>)
    ensures if more == [] then calls + more == calls
            else Run(calls + more) == After(Run(calls + Front(more)), Last(more))
  {
    if more == [] {
      assert calls + more == calls;
    } else {
      assert Front(calls + more) == calls + Front(more) && Last(calls + more) == Last(more);
    }
  }

  lemma StepKeepsVersion(s: State, call: Call, k: Key)
    requires Consistent(s) && k in s.versions && k.id in After(s, call).heads
    ensures var s' := After(s, call);
            && k in s'.versions && SameRecord(s.versions[k], s'.versions[k])
            && k.id in s.heads && s'.heads[k.id].current >= s.heads[k.id].current
  {
    hide After, Consistent, Performed;
    CurrentExists(s, k.id);
    CallDoes(s, call);
  }

  /** While its asset stays a version keeps its content, author and date; only its note may change. */
  lemma {:induction false} VersionsNeverChange(calls: seq<Call>, more: seq<Call>, k: Key)
    requires k in Run(calls).versions && Stays(calls, more, k.id)
    ensures k.id in Run(calls).heads
    ensures k in Run(calls + more).versions && SameRecord(Run(calls).versions[k], Run(calls + more).versions[k])
    ensures Run(calls + more).heads[k.id].current >= Run(calls).heads[k.id].current
    decreases |more|
  {
    hide After, Consistent, Run;
    Continues(calls, more);
    RunKeeps(calls);
    CurrentExists(Run(calls), k.id);
    if more != [] {
      VersionsNeverChange(calls, Front(more), k);
      RunKeeps(calls + Front(more));
      StepKeepsVersion(Run(calls + Front(more)), Last(more), k);
    }
  }

  ghost predicate SameVersionsOf(s: State, s': State, id: AssetId) {
    forall k: Key :: k.id == id ==> (k in s'.versions <==> k in s.versions)
                                    && (k in s.versions ==> s'.versions[k] == s.versions[k])
  }

  /** The asset as it is: its head and its versions. */
  ghost predicate SameAsset(s: State, s': State, id: AssetId) {
    id in s.heads && id in s'.heads && s'.heads[id] == s.heads[id] && SameVersionsOf(s, s', id)
  }

  predicate Calls(call: Call, user: UserId) {
    call.By? && call.op.user == user
  }

  predicate Hinted(hint: Option<AssetType>, assetType: AssetType) {
    hint.Some? ==> hint.value == assetType
  }

  /** The administrators' calls that take an asset of a type away. */
  predicate Removes(call: Call, id: AssetId, assetType: AssetType) {
    call.PurgeAll? || (call.ManageDelete? && call.id == id && Hinted(call.hint, assetType))
  }

  /** What an administrator's call makes of a head that stays. */
  function Reshown(head: Head, id: AssetId, call: Call): Head {
    if call.ManageVisibility? && call.id == id && Hinted(call.hint, head.assetType)
    then head.(visibility := call.visibility, updatedAt := call.now) else head
  }

  /** The same for several calls. */
  function ReshownBy(head: Head, id: AssetId, calls: seq<Call>): (shown: Head)
    ensures shown == head.(visibility := shown.visibility, updatedAt := shown.updatedAt)
  {
    if calls == [] then head else Reshown(ReshownBy(head, id, Front(calls)), id, Last(calls))
  }

  lemma OthersStep(s: State, call: Call, id: AssetId)
    requires Consistent(s) && id in s.heads && !Calls(call, s.heads[id].owner)
    ensures var s' := After(s, call);
            && (id in s'.heads <==> !Removes(call, id, s.heads[id].assetType))
            && (id in s'.heads ==> s'.heads[id] == Reshown(s.heads[id], id, call) && SameVersionsOf(s, s', id))
  {
    hide After, Consistent, Performed;
    CallDoes(s, call);
  }

  /**
   * Without a call of its owner an asset stays exactly when no administrator removes it. While it stays
   * its versions are as they were, and its head is what the administrators' calls alone make of it: only
   * visibility and date can change.
   */
  lemma {:induction false} OthersChangeOnlyVisibility(calls: seq<Call>, more: seq<Call>, id: AssetId)
    requires id in Run(calls).heads
    requires forall i :: 0 <= i < |more| ==> !Calls(more[i], Run(calls).heads[id].owner)
    ensures var s, s' := Run(calls), Run(calls + more);
            && (Stays(calls, more, id) <==>
                forall i :: 0 <= i < |more| ==> !Removes(more[i], id, s.heads[id].assetType))
            && (Stays(calls, more, id) ==>
                  && s'.heads[id] == ReshownBy(s.heads[id], id, more)
                  && SameVersionsOf(s, s', id))
    decreases |more|
  {
    hide After, Consistent, Run;
    Continues(calls, more);
    if more != [] {
      OthersChangeOnlyVisibility(calls, Front(more), id);
      if Stays(calls, Front(more), id) {
        RunKeeps(calls + Front(more));
        OthersStep(Run(calls + Front(more)), Last(more), id);
      }
    }
  }

  /** The administrators' calls that make an asset another one: they remove it, or show it otherwise or anew. */
  predicate Alters(s: State, call: Call, id: AssetId) {
    id in s.heads && (Removes(call, id, s.heads[id].assetType) || Reshown(s.heads[id], id, call) != s.heads[id])
  }

  ghost predicate AlwaysSame(calls: seq<Call>, more: seq<Call>, id: AssetId) {
    forall i :: 0 <= i <= |more| ==> SameAsset(Run(calls), Run(calls + more[..i]), id)
  }

  ghost predicate NeverAltered(calls: seq<Call>, more: seq<Call>, id: AssetId) {
    forall i :: 0 <= i < |more| ==> !Alters(Run(calls + more[..i]), more[i], id)
  }

  lemma PrefixesOfFront(more: seq<Call>)
    requires more != []
    ensures more[..|more|] == more && more[..|more| - 1] == Front(more)
    ensures forall i :: 0 <= i < |more| ==> Front(more)[..i] == more[..i]
  {
  }

  /** Without a call of its owner an asset is the same all along exactly when no administrator's call alters it. */
  lemma {:induction false} OnlyAdministratorsAlter(calls: seq<Call>, more: seq<Call>, id: AssetId)
    requires id in Run(calls).heads
    requires forall i :: 0 <= i < |more| ==> !Calls(more[i], Run(calls).heads[id].owner)
    ensures AlwaysSame(calls, more, id) <==> NeverAltered(calls, more, id)
    decreases |more|
  {
    hide After, Consistent, Run, Removes, Reshown;
    Continues(calls, more);
    if more == [] {
      assert more[..0] == more;
    } else {
      var front := Front(more);
      PrefixesOfFront(more);
      OnlyAdministratorsAlter(calls, front, id);
      assert AlwaysSame(calls, more, id) <==>
             AlwaysSame(calls, front, id) && SameAsset(Run(calls), Run(calls + more), id);
      assert NeverAltered(calls, more, id) <==>
             NeverAltered(calls, front, id) && !Alters(Run(calls + front), Last(more), id);
      if AlwaysSame(calls, front, id) {
        assert front[..|front|] == front;
        RunKeeps(calls + front);
        OthersStep(Run(calls + front), Last(more), id);
      }
    }
  }

  lemma SubscriptionStep(s: State, call: Call, w: Subscriber)
    requires Consistent(s) && w in s.subscriptions && !Calls(call, w.user) && w.id in After(s, call).heads
    ensures var s' := After(s, call);
            w in s'.subscriptions && s'.subscriptions[w] == s.subscriptions[w]
  {
    hide After, Consistent, Performed;
    CallDoes(s, call);
  }

  /** While the asset stays nobody but the subscriber changes a subscription. */
  lemma {:induction false} SubscriptionsAreOnesOwn(calls: seq<Call>, more: seq<Call>, w: Subscriber)
    requires w in Run(calls).subscriptions && Stays(calls, more, w.id)
    requires forall i :: 0 <= i < |more| ==> !Calls(more[i], w.user)
    ensures var s, s' := Run(calls), Run(calls + more);
            w in s'.subscriptions && s'.subscriptions[w] == s.subscriptions[w]
    decreases |more|
  {
    hide After, Consistent, Run;
    Continues(calls, more);
    if more != [] {
      SubscriptionsAreOnesOwn(calls, Front(more), w);
      RunKeeps(calls + Front(more));
      SubscriptionStep(Run(calls + Front(more)), Last(more), w);
    }
  }

  ghost predicate Succeeds(calls: seq<Call>, i: nat)
    requires i < |calls| && calls[i].By?
  {
    Performed(Run(calls[..i]), calls[i].op).result.Ok?
  }

  lemma ExpectationMet(s: State, op: Op)
    requires Consistent(s) && op.Update? && op.expected.Some? && Performed(s, op).result.Ok?
    ensures op.id in s.heads && op.expected.value == s.heads[op.id].current
    ensures var s' := Performed(s, op).state;
            op.id in s'.heads && s'.heads[op.id].current == op.expected.value + 1
            && Key(op.id, s'.heads[op.id].current) in s'.versions
  {
    hide Updated, Consistent;
    UpdateDoes(s, op);
  }

  lemma RunStep(calls: seq<Call>, i: nat)
    requires i < |calls|
    ensures Run(calls[..i + 1]) == After(Run(calls[..i]), calls[i])
  {
    assert Front(calls[..i + 1]) == calls[..i] && Last(calls[..i + 1]) == calls[i];
  }

  /** Of the updates that expect the same version of an asset, at most one succeeds while the asset stays. */
  lemma NoLostUpdate(calls: seq<Call>, i: nat, j: nat)
    requires i < j < |calls| && calls[i].By? && calls[j].By? && calls[i].op.Update? && calls[j].op.Update?
    requires calls[i].op.id == calls[j].op.id
    requires calls[i].op.expected.Some? && calls[i].op.expected == calls[j].op.expected
    requires Stays(calls[..i + 1], calls[i + 1..j], calls[i].op.id)
    ensures !(Succeeds(calls, i) && Succeeds(calls, j))
  {
    hide Performed, Run, Consistent;
    if Succeeds(calls, i) && Succeeds(calls, j) {
      var after, between, op := calls[..i + 1], calls[i + 1..j], calls[i].op;
      RunKeeps(calls[..i]);
      RunKeeps(calls[..j]);
      RunStep(calls, i);
      ExpectationMet(Run(calls[..i]), op);
      ExpectationMet(Run(calls[..j]), calls[j].op);
      assert after + between == calls[..j];
      VersionsNeverChange(after, between, Key(op.id, Run(after).heads[op.id].current));
    }
  }

  // ---------------------------------------------------------------------------------------
  // The repository
  // ---------------------------------------------------------------------------------------

  class AssetRepository {
    var heads: map<AssetId, Head>
    var versions: map<Key, Version>
    var subscriptions: map<Subscriber, Subscription>

    function View(): State
      reads this
    {
      State(heads, versions, subscriptions)
    }

    ghost predicate Valid()
      reads this
    {
      Consistent(View())
    }

    constructor ()
      ensures Valid() && View() == Empty
    {
      heads, versions, subscriptions := map[], map[], map[];
    }

    method CreateAsset(op: Op) returns (result: Result<Found, Failure>)
      requires Valid() && op.Create?
      modifies this
      ensures Valid() && Outcome(View(), result) == Created(old(View()), op)
      ensures Does(old(View()), op, View(), result)
    {
      WriteKeeps(View(), op);
      WriteDoes(View(), op);
      hide Does, Consistent, Context;
      if !IdOk(op.id) || !AboutOk(op.assetType, op.about) || !ContentOk(op.assetType, op.content) || !NoteOk(op.note) {
        return Err(Invalid);
      }
      var existing := FindHead(View(), op.id);
      if existing.Some? {
        return Err(Invalid);
      }
      if op.content.bytes > MAX_CONTENT_BYTES {
        return Err(Invalid);
      }
      if op.id in heads || Key(op.id, 1) in versions {
        return Err(Constraint);
      }
      var createdAt := if op.createdAt.Some? then op.createdAt.value else op.now;
      heads := heads[op.id := Head(op.assetType, op.user, op.visibility, 1,
                                  Stored(op.assetType, op.about), createdAt, op.now)];
      versions := versions[Key(op.id, 1) := Version(op.content, op.now, op.user, op.note)];
      result := Context(View(), op.id, op.assetType, Some(op.user), None);
    }

    method UpdateAsset(op: Op) returns (result: Result<Found, Failure>)
      requires Valid() && op.Update?
      modifies this
      ensures Valid() && Outcome(View(), result) == Updated(old(View()), op)
      ensures Does(old(View()), op, View(), result)
    {
      UpdateKeeps(View(), op);
      UpdateDoes(View(), op);
      hide Does, Consistent, Context;
      var owned := Owned(View(), op.id, op.assetType, op.user);
      if owned.Err? {
        return Err(owned.error);
      }
      if !UpdateOk(op) {
        return Err(Invalid);
      }
      result := StoreUpdate(owned.value, op);
    }

    /** The rest of an update, when ownership and payload have been checked. */
    method StoreUpdate(existing: Head, op: Op) returns (result: Result<Found, Failure>)
      requires op.Update? && UpdateOk(op) && Owned(View(), op.id, op.assetType, op.user) == Ok(existing)
      modifies this
      ensures Outcome(View(), result) == Updated(old(View()), op)
    {
      hide Context, UpdateOk;
      if op.expected.Some? && op.expected.value != existing.current {
        return Err(Conflict(existing.current));
      }
      if op.content.bytes > MAX_CONTENT_BYTES {
        return Err(Invalid);
      }
      var next := existing.current + 1;
      if Key(op.id, next) in versions {
        return Err(Constraint);
      }
      var visibility := if op.newVisibility.Some? then op.newVisibility.value else existing.visibility;
      heads := heads[op.id := existing.(visibility := visibility, current := next,
                                        about := Stored(op.assetType, op.about), updatedAt := op.now)];
      versions := versions[Key(op.id, next) := Version(op.content, op.now, op.user, op.note)];
      subscriptions := SeenIfUnset(subscriptions, Subscriber(op.id, op.user), next);
      result := Context(View(), op.id, op.assetType, Some(op.user), None);
    }

    method DeleteOwnedAsset(op: Op) returns (result: Result<Found, Failure>)
      requires Valid() && op.Delete?
      modifies this
      ensures Valid() && Outcome(View(), result) == Removed(old(View()), op)
      ensures Does(old(View()), op, View(), result)
    {
      WriteKeeps(View(), op);
      WriteDoes(View(), op);
      hide Does, Consistent, Context;
      var owned := Owned(View(), op.id, op.assetType, op.user);
      if owned.Err? {
        return Err(owned.error);
      }
      result := Context(View(), op.id, op.assetType, Some(op.user), None);
      var rest := Deleted(View(), op.id);
      heads, versions, subscriptions := rest.heads, rest.versions, rest.subscriptions;
    }

    method SubscribeAsset(op: Op) returns (result: Result<Found, Failure>)
      requires Valid() && op.Subscribe?
      modifies this
      ensures Valid() && Outcome(View(), result) == Subscribed(old(View()), op)
      ensures Does(old(View()), op, View(), result)
    {
      WriteKeeps(View(), op);
      WriteDoes(View(), op);
      hide Does, Consistent, Context;
      var typed := Typed(View(), op.id, op.assetType);
      if typed.Err? {
        return Err(typed.error);
      }
      if typed.value.visibility != Public && typed.value.owner != op.user {
        return Err(Forbidden);
      }
      subscriptions := subscriptions[Subscriber(op.id, op.user) := Subscription(op.now, Some(typed.value.current))];
      result := Context(View(), op.id, op.assetType, Some(op.user), None);
    }

    method UnsubscribeAsset(op: Op) returns (result: Result<Found, Failure>)
      requires Valid() && op.Unsubscribe?
      modifies this
      ensures Valid() && Outcome(View(), result) == Unsubscribed(old(View()), op)
      ensures Does(old(View()), op, View(), result)
    {
      WriteKeeps(View(), op);
      WriteDoes(View(), op);
      hide Does, Consistent, Context;
      var typed := Typed(View(), op.id, op.assetType);
      if typed.Err? {
        return Err(typed.error);
      }
      if typed.value.visibility != Public && typed.value.owner != op.user {
        return Err(Forbidden);
      }
      subscriptions := subscriptions - {Subscriber(op.id, op.user)};
      result := Context(View(), op.id, op.assetType, Some(op.user), None);
    }

    method UpdateVersionNote(op: Op) returns (result: Result<Found, Failure>)
      requires Valid() && op.EditNote?
      modifies this
      ensures Valid() && Outcome(View(), result) == Noted(old(View()), op)
      ensures Does(old(View()), op, View(), result)
    {
      WriteKeeps(View(), op);
      WriteDoes(View(), op);
      hide Does, Consistent, Context;
      var owned := Owned(View(), op.id, op.assetType, op.user);
      if owned.Err? {
        return Err(owned.error);
      }
      if op.number <= 0 {
        return Err(Invalid);
      }
      var k := Key(op.id, op.number);
      if k !in versions {
        return Err(NotFound);
      }
      if !NoteOk(op.note) {
        return Err(Invalid);
      }
      versions := versions[k := versions[k].(note := op.note)];
      result := Context(View(), op.id, op.assetType, Some(op.user), Some(op.number));
    }

    method ForkAsset(op: Op) returns (result: Result<Found, Failure>)
      requires Valid() && op.Fork?
      modifies this
      ensures Valid() && Outcome(View(), result) == Forked(old(View()), op)
      ensures Does(old(View()), op, View(), result)
    {
      WriteKeeps(View(), op);
      WriteDoes(View(), op);
      hide Does, Consistent, Context;
      var source := ReadContent(View(), op.id, op.assetType, Some(op.user), None);
      if source.Err? {
        return Err(source.error);
      }
      result := CreateAsset(ForkRecord(op, source.value));
    }

    method UpdateVisibility(op: Op) returns (result: Result<Found, Failure>)
      requires Valid() && op.SetVisibility?
      modifies this
      ensures Valid() && Outcome(View(), result) == Shown(old(View()), op)
      ensures Does(old(View()), op, View(), result)
    {
      WriteKeeps(View(), op);
      WriteDoes(View(), op);
      hide Does, Consistent, Context;
      var owned := Owned(View(), op.id, op.assetType, op.user);
      if owned.Err? {
        return Err(owned.error);
      }
      if !ExpectedOk(op.expected) {
        return Err(Invalid);
      }
      if op.expected.Some? && op.expected.value != owned.value.current {
        return Err(Conflict(owned.value.current));
      }
      heads := heads[op.id := owned.value.(visibility := op.visibility, updatedAt := op.now)];
      result := Context(View(), op.id, op.assetType, Some(op.user), None);
    }

    method UpdateMeta(op: Op) returns (result: Result<Found, Failure>)
      requires Valid() && op.SetMeta?
      modifies this
      ensures Valid() && Outcome(View(), result) == Named(old(View()), op)
      ensures Does(old(View()), op, View(), result)
    {
      WriteKeeps(View(), op);
      WriteDoes(View(), op);
      hide Does, Consistent, Context;
      var owned := Owned(View(), op.id, op.assetType, op.user);
      if owned.Err? {
        return Err(owned.error);
      }
      if !MetaOk(op.name, op.description, op.tags) {
        return Err(Invalid);
      }
      var about := owned.value.about.(name := op.name, description := op.description, tags := op.tags);
      heads := heads[op.id := owned.value.(about := about, updatedAt := op.now)];
      result := Context(View(), op.id, op.assetType, Some(op.user), None);
    }

    method AdminUpdateAssetVisibility(id: AssetId, hint: Option<AssetType>, visibility: Visibility, now: int)
      returns (result: Result<Option<Found>, Failure>)
      requires Valid()
      modifies this
      ensures Valid() && View() == After(old(View()), ManageVisibility(id, hint, visibility, now))
      ensures Manages(old(View()), ManageVisibility(id, hint, visibility, now), View())
      ensures result == GetManagedAsset(View(), id, hint)
    {
      StepKeeps(View(), ManageVisibility(id, hint, visibility, now));
      CallDoes(View(), ManageVisibility(id, hint, visibility, now));
      hide Manages, Consistent;
      var existing := ManagedHead(View(), id, hint);
      if existing.None? {
        return Ok(None);
      }
      heads := heads[id := existing.value.(visibility := visibility, updatedAt := now)];
      result := GetManagedAsset(View(), id, hint);
    }

    method AdminDeleteAsset(id: AssetId, hint: Option<AssetType>) returns (deleted: bool)
      requires Valid()
      modifies this
      ensures Valid() && View() == After(old(View()), ManageDelete(id, hint))
      ensures Manages(old(View()), ManageDelete(id, hint), View())
      ensures deleted == old(Manageable(View(), id, hint))
    {
      StepKeeps(View(), ManageDelete(id, hint));
      CallDoes(View(), ManageDelete(id, hint));
      CurrentExists(View(), id);
      hide Manages, Consistent;
      if ManagedHead(View(), id, hint).None? {
        return false;
      }
      var rest := Deleted(View(), id);
      heads, versions, subscriptions := rest.heads, rest.versions, rest.subscriptions;
      deleted := true;
    }

    /** Removes everything and says how many subscriptions, versions, details and heads there were. */
    method AdminPurgeAllAssets()
      returns (deletedSubscriptions: nat, deletedVersions: nat, deletedDetails: nat, deletedAssets: nat)
      requires Valid()
      modifies this
      ensures Valid() && View() == Empty
      ensures deletedSubscriptions == |old(subscriptions)| && deletedVersions == |old(versions)|
      ensures deletedDetails == |set id | id in old(heads) && old(heads)[id].assetType == Variant|
      ensures deletedAssets == |old(heads)|
    {
      deletedSubscriptions, subscriptions := |subscriptions|, map[];
      deletedVersions, versions := |versions|, map[];
      deletedDetails := |set id | id in heads && heads[id].about.details.Some?|;
      assert (set id | id in heads && heads[id].about.details.Some?)
             == set id | id in heads && heads[id].assetType == Variant;
      deletedAssets, heads := |heads|, map[];
    }
  }
}
