/**
 * NutEventItem: the editable in-memory copy of a stored event (meal or
 * workout), with its group identity string, the dirty check against the
 * stored record, the copy-back that clears it, and the notes/time inequality.
 */
module NutEventItems {
  import opened Options
  import opened Dates

  /** The stored event record; every attribute may be missing. */
  datatype EventItem = EventItem(
    title: Option<string>,
    notes: Option<string>,
    nutCracked: Option<bool>,
    time: Option<Date>,
    timezoneOffset: Option<int>,   // minutes from GMT
    userid: Option<string>,
    modifiedTime: Option<Date>)

  datatype NutEventItem = NutEventItem(
    title: string,
    location: string,
    notes: string,
    time: Date,
    tzOffsetSecs: int,
    nutCracked: bool,
    eventItem: EventItem)

  /**
   * `init(eventItem:)`. The clock (`now`) and the calendar's current offset
   * (`localOffsetSecs`) stand in for the fallbacks used when the record lacks them.
   */
  function FromEventItem(e: EventItem, now: Date, localOffsetSecs: int): (item: NutEventItem)
    ensures item.eventItem == e
    ensures item.title == e.title.GetOr("") && item.notes == e.notes.GetOr("")
    ensures item.location == ""
    ensures item.nutCracked <==> e.nutCracked == Some(true)
    ensures e.time.Some? ==> item.time == e.time.value
    ensures e.time.None? ==> item.time == now
    ensures e.timezoneOffset.Some? ==> item.tzOffsetSecs == e.timezoneOffset.value * 60
    ensures e.timezoneOffset.None? ==> item.tzOffsetSecs == localOffsetSecs
  {
    NutEventItem(
      title := e.title.GetOr(""),
      location := "",
      notes := e.notes.GetOr(""),
      time := e.time.GetOr(now),
      tzOffsetSecs := match e.timezoneOffset
                      case Some(minutes) => minutes * 60
                      case None => localOffsetSecs,
      nutCracked := e.nutCracked.GetOr(false),
      eventItem := e)
  }

  /** The base class's prefix; subclasses would distinguish their groups here. */
  function Prefix(): (p: string)
    ensures |p| == 0
  {
    ""
  }

  /** `nutEventIdString`: the group identity, title immediately followed by location. */
  function NutEventIdString(item: NutEventItem): (id: string)
    ensures |id| == |item.title| + |item.location|
    ensures id[..|item.title|] == item.title && id[|item.title|..] == item.location
  {
    Prefix() + item.title + item.location
  }

  /** Two items share a group exactly when their titles-then-locations spell the same string. */
  lemma SameGroupIff(a: NutEventItem, b: NutEventItem)
    ensures NutEventIdString(a) == NutEventIdString(b) <==> a.title + a.location == b.title + b.location
  {
  }

  /** The identity aliases: a title ending in the location's text meets an empty location. */
  lemma IdStringAliases(a: NutEventItem, b: NutEventItem)
    requires a.title == "A at Home" && a.location == ""
    requires b.title == "A at " && b.location == "Home"
    ensures NutEventIdString(a) == NutEventIdString(b)
  {
    SameGroupIff(a, b);
    assert a.title + a.location == b.title + b.location;
  }

  /** `changed()`: the item differs from the stored record, or the record is incomplete. */
  function Changed(item: NutEventItem): (dirty: bool)
    ensures item.eventItem.title.GetOr("") != item.title ==> dirty
    ensures item.eventItem.notes.GetOr("") != item.notes ==> dirty
    ensures item.eventItem.nutCracked != Some(item.nutCracked) ==> dirty
    ensures item.eventItem.time != Some(item.time) ==> dirty
    ensures item.eventItem.userid.None? ==> dirty
    ensures !dirty ==>
              && item.eventItem.nutCracked == Some(item.nutCracked)
              && item.eventItem.time == Some(item.time)
              && item.eventItem.userid.Some?
  {
    var e := item.eventItem;
    || e.title.GetOr("") != item.title
    || e.notes.GetOr("") != item.notes
    || e.nutCracked.None? || item.nutCracked != e.nutCracked.value
    || e.time.None? || item.time != e.time.value
    || e.userid.None?
  }

  /** `copyChanges()`: writes title, notes, cracked flag and time back into the record. */
  function CopyChanges(item: NutEventItem): (r: NutEventItem)
    ensures r.eventItem.title == Some(item.title) && r.eventItem.notes == Some(item.notes)
    ensures r.eventItem.nutCracked == Some(item.nutCracked) && r.eventItem.time == Some(item.time)
    ensures r.eventItem.userid == item.eventItem.userid
    ensures r.eventItem.timezoneOffset == item.eventItem.timezoneOffset
    ensures r.eventItem.modifiedTime == item.eventItem.modifiedTime
    ensures r.(eventItem := item.eventItem) == item
  {
    item.(eventItem := item.eventItem.(
      title := Some(item.title),
      notes := Some(item.notes),
      nutCracked := Some(item.nutCracked),
      time := Some(item.time)))
  }

  /** After the copy-back the only dirtiness left is a missing user id. */
  lemma CopyClearsChanged(item: NutEventItem)
    ensures Changed(CopyChanges(item)) <==> item.eventItem.userid.None?
  {
  }

  /**
   * Clean means the copy-back would be a no-op, apart from turning a nil title
   * or nil notes into "", with the cracked flag, time and user id all present.
   */
  lemma CleanIffCopyIsNoOp(item: NutEventItem)
    ensures var e := item.eventItem;
            !Changed(item) <==>
              && e.nutCracked.Some? && e.time.Some? && e.userid.Some?
              && CopyChanges(item).eventItem == e.(title := Some(e.title.GetOr("")), notes := Some(e.notes.GetOr("")))
  {
  }

  /**
   * A freshly constructed item is clean exactly when the record carries the
   * cracked flag, a time and a user id; a missing title or notes is not a change.
   */
  lemma FreshItemChangedIff(e: EventItem, now: Date, localOffsetSecs: int)
    ensures !Changed(FromEventItem(e, now, localOffsetSecs)) <==>
              e.nutCracked.Some? && e.time.Some? && e.userid.Some?
  {
  }

  datatype SaveOutcome = SaveOutcome(saved: bool, item: NutEventItem)

  /**
   * What `saveChanges()` consults besides the item: whether the record has a
   * managed-object context, the clock, the signed-in user id and the store's
   * own save result.
   */
  datatype StoreContext = StoreContext(hasContext: bool, now: Date, currentUserId: Option<string>, storeSaved: bool)

  /**
   * The body of `saveChanges()`, given the receiver's `changed()` answer
   * (`dirty`), since subclasses override `changed()`: a dirty item is copied
   * back, then stamped and saved when it has a context.
   */
  function SaveWith(item: NutEventItem, dirty: bool, ctx: StoreContext): (r: SaveOutcome)
    ensures !dirty ==> !r.saved && r.item == item
    ensures r.saved <==> dirty && ctx.hasContext && ctx.storeSaved
    ensures dirty && !ctx.hasContext ==> r.item == CopyChanges(item)
    ensures dirty && ctx.hasContext ==>
              && r.item.eventItem.modifiedTime == Some(ctx.now)
              && r.item.eventItem.userid == ctx.currentUserId
              && r.item.eventItem.(modifiedTime := item.eventItem.modifiedTime,
                                   userid := item.eventItem.userid) == CopyChanges(item).eventItem
    ensures r.item.eventItem.timezoneOffset == item.eventItem.timezoneOffset
    ensures r.item.(eventItem := item.eventItem) == item
  {
    if !dirty then SaveOutcome(false, item)
    else
      var copied := CopyChanges(item);
      if ctx.hasContext then
        SaveOutcome(ctx.storeSaved,
                    copied.(eventItem := copied.eventItem.(modifiedTime := Some(ctx.now), userid := ctx.currentUserId)))
      else
        SaveOutcome(false, copied)
  }

  /** `saveChanges()` on a plain item, whose `changed()` is the base class's. */
  function SaveChanges(item: NutEventItem, ctx: StoreContext): (r: SaveOutcome)
    ensures !Changed(item) ==> !r.saved && r.item == item
    ensures r.saved <==> Changed(item) && ctx.hasContext && ctx.storeSaved
    ensures Changed(item) ==>
              && r.item.eventItem.title == Some(item.title)
              && r.item.eventItem.notes == Some(item.notes)
              && r.item.eventItem.nutCracked == Some(item.nutCracked)
              && r.item.eventItem.time == Some(item.time)
    ensures Changed(item) && ctx.hasContext ==>
              r.item.eventItem.modifiedTime == Some(ctx.now) && r.item.eventItem.userid == ctx.currentUserId
    ensures Changed(item) && !ctx.hasContext ==> r.item == CopyChanges(item)
    ensures r.item.eventItem.timezoneOffset == item.eventItem.timezoneOffset
    ensures r.item.(eventItem := item.eventItem) == item
  {
    SaveWith(item, Changed(item), ctx)
  }

  /** A save leaves the item clean as long as a user id ends up on the record. */
  lemma SavedItemIsClean(item: NutEventItem, ctx: StoreContext)
    requires ctx.hasContext ==> ctx.currentUserId.Some?
    requires !ctx.hasContext ==> item.eventItem.userid.Some?
    ensures !Changed(SaveChanges(item, ctx).item)
  {
    if Changed(item) {
      CopyClearsChanged(item);
    }
  }

  /** The free `!=` operator on items: only notes and time take part. */
  function NotEqual(left: NutEventItem, right: NutEventItem): (differ: bool)
    ensures !differ <==> left.notes == right.notes && left.time == right.time
    ensures differ ==> left != right
  {
    left.notes != right.notes || left.time != right.time
  }

  /** Title, location and everything else are ignored by `!=`; it is irreflexive and symmetric. */
  lemma NotEqualIgnoresIdentity(left: NutEventItem, right: NutEventItem, title: string, location: string)
    ensures NotEqual(left, right) == NotEqual(left.(title := title, location := location), right)
    ensures !NotEqual(left, left)
    ensures NotEqual(left, right) == NotEqual(right, left)
    ensures !NotEqual(left, right) <==> left.notes == right.notes && left.time == right.time
  {
  }

  /** The base class's photo list and first picture: a plain item has none. */
  function PhotoUrlArray(item: NutEventItem): (urls: seq<string>)
    ensures |urls| == 0
  {
    []
  }

  function FirstPictureUrl(item: NutEventItem): (url: string)
    ensures |url| == 0
  {
    ""
  }
}
