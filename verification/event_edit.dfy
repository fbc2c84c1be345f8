/**
 * The add/edit event screen's decision logic, without the UI: placeholder
 * filtering of the text fields, the "changed" predicates that drive the save
 * button, the photo files deleted on cancel, on return from the photo viewer
 * and on save, the write-back of an edited item, and the group bookkeeping.
 */
module EventEdit {
  import opened Options
  import opened NutEventItems
  import opened Dates
  import opened EventPhotos

  /** What kind of item is being edited; a meal carries its three photo slots. */
  datatype ItemKind = Meal(photo: string, photo2: string, photo3: string) | Workout | OtherKind

  datatype EditedItem = EditedItem(base: NutEventItem, kind: ItemKind)

  /** A meal's photo list is its non-empty slots in order; other items have the base class's empty list. */
  function ItemPhotoUrlArray(item: EditedItem): (urls: seq<string>)
    ensures |urls| <= MaxPhotos
    ensures forall u | u in urls :: u != ""
    ensures !item.kind.Meal? ==> urls == PhotoUrlArray(item.base)
    ensures item.kind.Meal? ==>
              forall u :: u in urls <==> u != "" && u in [item.kind.photo, item.kind.photo2, item.kind.photo3]
  {
    match item.kind
    case Meal(p1, p2, p3) => NonEmpty([p1, p2, p3])
    case _ => PhotoUrlArray(item.base)
  }

  /** The hint texts shown in empty fields (localized strings, opaque here). */
  datatype Placeholders = Placeholders(title: string, location: string, notes: string)

  /** A group of events sharing one identity string. */
  datatype Group = Group(id: string, items: seq<NutEventItem>)

  /** The screen state the decisions read; text fields may be nil. */
  datatype Screen = Screen(
    editExisting: bool,
    eventItem: Option<EditedItem>,
    eventGroup: Option<Group>,
    titleText: Option<string>,
    locationText: Option<string>,
    notesText: Option<string>,
    eventTime: Date,
    pictureUrls: seq<string>,
    datePickerShown: bool)

  // ---------------------------------------------------------------- text fields

  /** `filteredLocationText` / `filteredNotesText`: nil or the placeholder read as "". */
  function FilteredText(text: Option<string>, placeholder: string): (r: string)
    ensures text.None? || text == Some(placeholder) ==> r == ""
    ensures text.Some? && text.value != placeholder ==> r == text.value
  {
    match text
    case Some(t) => if t != placeholder then t else ""
    case None => ""
  }

  /** Filtering twice is filtering once. */
  lemma FilteredTextIdempotent(text: Option<string>, placeholder: string)
    ensures FilteredText(Some(FilteredText(text, placeholder)), placeholder) == FilteredText(text, placeholder)
  {
  }

  function FilteredLocationText(s: Screen, ph: Placeholders): (location: string)
    ensures location == "" || (s.locationText == Some(location) && location != ph.location)
    ensures s.locationText.Some? && s.locationText.value != ph.location ==> location == s.locationText.value
  {
    FilteredText(s.locationText, ph.location)
  }

  function FilteredNotesText(s: Screen, ph: Placeholders): (notes: string)
    ensures notes == "" || (s.notesText == Some(notes) && notes != ph.notes)
    ensures s.notesText.Some? && s.notesText.value != ph.notes ==> notes == s.notesText.value
  {
    FilteredText(s.notesText, ph.notes)
  }

  // ---------------------------------------------------------------- change detection

  /** `newEventChanged`: an "eat again" group, any non-placeholder text or any photo. */
  function NewEventChanged(s: Screen, ph: Placeholders): (changed: bool)
    ensures !changed <==>
              && s.eventGroup.None?
              && s.titleText == Some(ph.title)
              && s.locationText == Some(ph.location)
              && s.notesText == Some(ph.notes)
              && s.pictureUrls == []
  {
    || s.eventGroup.Some?
    || s.titleText != Some(ph.title)
    || s.locationText != Some(ph.location)
    || s.notesText != Some(ph.notes)
    || |s.pictureUrls| > 0
  }

  /**
   * An unchanged new event would save nothing: no group, empty filtered
   * location and notes, and three empty photo slots.
   */
  lemma UnchangedNewEventIsBlank(s: Screen, ph: Placeholders)
    requires !NewEventChanged(s, ph)
    ensures s.eventGroup.None?
    ensures FilteredLocationText(s, ph) == "" && FilteredNotesText(s, ph) == ""
    ensures Slots(s.pictureUrls) == ["", "", ""]
  {
  }

  /** Any text the filters would keep, or any photo, marks a new event as changed. */
  lemma ContentMakesNewEventChanged(s: Screen, ph: Placeholders)
    requires FilteredLocationText(s, ph) != "" || FilteredNotesText(s, ph) != "" || |s.pictureUrls| > 0
    ensures NewEventChanged(s, ph)
  {
  }

  /** `existingEventChanged`: compares the fields with the stored item; placeholders never count. */
  function ExistingEventChanged(s: Screen, ph: Placeholders): (changed: bool)
    ensures s.eventItem.None? ==> !changed
    ensures s.eventItem.Some? && s.titleText != Some(s.eventItem.value.base.title) ==> changed
    ensures s.eventItem.Some? && s.eventItem.value.base.time != s.eventTime ==> changed
    ensures (s.eventItem.Some? && s.notesText != Some(s.eventItem.value.base.notes) &&
             s.notesText != Some(ph.notes)) ==> changed
    ensures (s.eventItem.Some? && s.eventItem.value.kind.Meal? &&
             s.locationText != Some(s.eventItem.value.base.location) &&
             s.locationText != Some(ph.location)) ==> changed
    ensures (s.eventItem.Some? && !s.eventItem.value.kind.Meal? &&
             s.titleText == Some(s.eventItem.value.base.title) &&
             (s.notesText == Some(s.eventItem.value.base.notes) || s.notesText == Some(ph.notes)) &&
             s.eventItem.value.base.time == s.eventTime) ==> !changed
    ensures s.eventItem.Some? && s.eventItem.value.kind.Meal? &&
            s.titleText == Some(s.eventItem.value.base.title) &&
            (s.notesText == Some(s.eventItem.value.base.notes) || s.notesText == Some(ph.notes)) &&
            s.eventItem.value.base.time == s.eventTime &&
            (s.locationText == Some(s.eventItem.value.base.location) || s.locationText == Some(ph.location)) ==>
              (changed <==>
                 Slots(s.pictureUrls) != [s.eventItem.value.kind.photo, s.eventItem.value.kind.photo2,
                                          s.eventItem.value.kind.photo3])
  {
    match s.eventItem
    case None => false
    case Some(item) =>
      if Some(item.base.title) != s.titleText then true
      else if Some(item.base.notes) != s.notesText && s.notesText != Some(ph.notes) then true
      else if item.base.time != s.eventTime then true
      else match item.kind
        case Meal(p1, p2, p3) =>
          if Some(item.base.location) != s.locationText && s.locationText != Some(ph.location) then true
          else
            || p1 != ItemToImageUrl(s.pictureUrls, 0)
            || p2 != ItemToImageUrl(s.pictureUrls, 1)
            || p3 != ItemToImageUrl(s.pictureUrls, 2)
        case _ => false
  }

  /** A notes or location field showing its placeholder behaves as if it showed the stored value. */
  lemma PlaceholderIsNoChange(s: Screen, ph: Placeholders)
    requires s.eventItem.Some?
    ensures var item := s.eventItem.value.base;
            s.notesText == Some(ph.notes) ==>
              ExistingEventChanged(s, ph) == ExistingEventChanged(s.(notesText := Some(item.notes)), ph)
    ensures var item := s.eventItem.value.base;
            s.locationText == Some(ph.location) ==>
              ExistingEventChanged(s, ph) == ExistingEventChanged(s.(locationText := Some(item.location)), ph)
  {
  }

  /** `updateSaveButtonState`, the decision only: whether the save button is hidden. */
  function SaveButtonHidden(s: Screen, ph: Placeholders): (hidden: bool)
    ensures s.datePickerShown ==> hidden
    ensures !s.datePickerShown && s.editExisting ==> (hidden <==> !ExistingEventChanged(s, ph))
    ensures !s.datePickerShown && !s.editExisting ==>
              (hidden <==> !NewEventChanged(s, ph) || s.titleText == Some("") || s.titleText == Some(ph.title))
  {
    if s.datePickerShown then true
    else if s.editExisting then !ExistingEventChanged(s, ph)
    else !NewEventChanged(s, ph) || (s.titleText.Some? && |s.titleText.value| == 0) || s.titleText == Some(ph.title)
  }

  /** A visible save button for a new event means something changed and the title is real. */
  lemma VisibleSaveMeansSomethingToSave(s: Screen, ph: Placeholders)
    requires !SaveButtonHidden(s, ph)
    ensures !s.datePickerShown
    ensures s.editExisting ==> ExistingEventChanged(s, ph)
    ensures !s.editExisting ==> NewEventChanged(s, ph) && s.titleText != Some("") && s.titleText != Some(ph.title)
  {
  }

  // ---------------------------------------------------------------- photo deletion

  /** `preExistingPhoto`: the URL already belongs to the item being edited. */
  function PreExistingPhoto(s: Screen, url: string): (preExisting: bool)
    ensures preExisting ==> s.eventItem.Some? && s.eventItem.value.kind.Meal? && url != ""
    ensures preExisting <==> s.eventItem.Some? && url in ItemPhotoUrlArray(s.eventItem.value)
  {
    s.eventItem.Some? && url in ItemPhotoUrlArray(s.eventItem.value)
  }

  function ExistingUrls(s: Screen): seq<string> {
    match s.eventItem
    case Some(item) => ItemPhotoUrlArray(item)
    case None => []
  }

  datatype PhotoCleanup = PhotoCleanup(screen: Screen, deleted: seq<string>)

  /** `deleteNewPhotos`: deletes the pending photos the item did not already have, then empties the list. */
  function DeleteNewPhotos(s: Screen): (r: PhotoCleanup)
    ensures r.screen == s.(pictureUrls := [])
    ensures forall u :: u in r.deleted <==> u in s.pictureUrls && !PreExistingPhoto(s, u)
    ensures forall u | !PreExistingPhoto(s, u) :: multiset(r.deleted)[u] == multiset(s.pictureUrls)[u]
  {
    PhotoCleanup(s.(pictureUrls := []), Unprotected(s.pictureUrls, ExistingUrls(s)))
  }

  /**
   * The photo-viewer branch of `done(_:)`: a pending photo is deleted when it is
   * neither pre-existing nor still in the viewer's list, which becomes the new pending list.
   */
  function ReturnFromPhotoViewer(s: Screen, viewerUrls: seq<string>): (r: PhotoCleanup)
    ensures r.screen == s.(pictureUrls := viewerUrls)
    ensures forall u :: u in r.deleted <==> u in s.pictureUrls && !PreExistingPhoto(s, u) && u !in viewerUrls
  {
    PhotoCleanup(s.(pictureUrls := viewerUrls), Unprotected(s.pictureUrls, ExistingUrls(s) + viewerUrls))
  }

  /** A photo the edited item already had is never deleted by either cleanup. */
  lemma PreExistingPhotosSurvive(s: Screen, viewerUrls: seq<string>, url: string)
    requires PreExistingPhoto(s, url)
    ensures url !in DeleteNewPhotos(s).deleted
    ensures url !in ReturnFromPhotoViewer(s, viewerUrls).deleted
  {
  }

  // ---------------------------------------------------------------- groups

  datatype GroupUpdate = GroupUpdate(group: Option<Group>, current: Option<NutEventItem>)

  /**
   * `updateItemAndGroupForNewEventItem`: keep the group when the new item still
   * belongs to it (adding the item unless the current item already did), else
   * start a new group from the new item.
   */
  function UpdateItemAndGroup(group: Option<Group>, newItem: Option<NutEventItem>,
                              current: Option<NutEventItem>): (r: GroupUpdate)
    ensures group.None? || newItem.None? ==> r == GroupUpdate(group, current)
    ensures group.Some? && newItem.Some? ==>
              r.group.Some? && r.group.value.id == NutEventIdString(newItem.value)
    ensures group.Some? && newItem.Some? && NutEventIdString(newItem.value) != group.value.id ==>
              r == GroupUpdate(Some(Group(NutEventIdString(newItem.value), [newItem.value])), newItem)
    ensures group.Some? && newItem.Some? && NutEventIdString(newItem.value) == group.value.id ==>
              if current.Some? && NutEventIdString(current.value) == group.value.id
              then r == GroupUpdate(group, current)
              else r == GroupUpdate(Some(group.value.(items := group.value.items + [newItem.value])), newItem)
  {
    match (group, newItem)
    case (Some(g), Some(n)) =>
      if NutEventIdString(n) == g.id then
        if current.Some? && NutEventIdString(current.value) == g.id then GroupUpdate(group, current)
        else GroupUpdate(Some(g.(items := g.items + [n])), newItem)
      else
        GroupUpdate(Some(Group(NutEventIdString(n), [n])), newItem)
    case _ => GroupUpdate(group, current)
  }

  /** Once the group has been fixed up for an item, fixing it up again changes nothing. */
  lemma UpdateItemAndGroupSettles(group: Option<Group>, newItem: Option<NutEventItem>, current: Option<NutEventItem>)
    ensures var r := UpdateItemAndGroup(group, newItem, current);
            UpdateItemAndGroup(r.group, newItem, r.current) == r
  {
  }

  /** The group-filtering step of `deleteItemAndReturn`: keep the items `!=` the deleted one. */
  function RemoveFromGroup(items: seq<NutEventItem>, deleted: NutEventItem): (r: seq<NutEventItem>)
    ensures |r| <= |items|
    ensures forall x {:trigger x in r} {:trigger x in items} :: x in r <==> x in items && NotEqual(x, deleted)
    ensures deleted !in r
    ensures forall x {:trigger multiset(r)[x]} :: multiset(r)[x] == if NotEqual(x, deleted) then multiset(items)[x] else 0
  {
    if |items| == 0 then []
    else
      assert items == [items[0]] + items[1..];
      (if NotEqual(items[0], deleted) then [items[0]] else []) + RemoveFromGroup(items[1..], deleted)
  }

  /** The filter works item by item, so the survivors keep their relative order. */
  lemma {:induction false} RemoveFromGroupAppend(a: seq<NutEventItem>, b: seq<NutEventItem>, deleted: NutEventItem)
    ensures RemoveFromGroup(a + b, deleted) == RemoveFromGroup(a, deleted) + RemoveFromGroup(b, deleted)
  {
    if |a| == 0 {
      assert a + b == b;
    } else {
      var head := if NotEqual(a[0], deleted) then [a[0]] else [];
      var restA := RemoveFromGroup(a[1..], deleted);
      var restB := RemoveFromGroup(b, deleted);
      assert (a + b)[0] == a[0];
      assert (a + b)[1..] == a[1..] + b;
      assert RemoveFromGroup(a + b, deleted) == head + RemoveFromGroup(a[1..] + b, deleted);
      RemoveFromGroupAppend(a[1..], b, deleted);
      assert RemoveFromGroup(a, deleted) == head + restA;
      assert head + (restA + restB) == (head + restA) + restB;
    }
  }

  /** Removal goes by notes and time, so an item sharing both with the deleted one leaves too. */
  lemma RemovalIsByNotesAndTime(items: seq<NutEventItem>, deleted: NutEventItem, x: NutEventItem)
    requires x in items
    ensures x !in RemoveFromGroup(items, deleted) <==> x.notes == deleted.notes && x.time == deleted.time
  {
  }

  datatype Segue = ToHome | ToDoneItemDeleted

  datatype DeleteOutcome = DeleteOutcome(screen: Screen, deletedPhotos: seq<string>, segue: Option<Segue>)

  /** `deleteItemAndReturn`; `storeDeleted` is the persistence layer's answer to deleting the item. */
  function DeleteItemAndReturn(s: Screen, storeDeleted: bool): (r: DeleteOutcome)
    ensures r.deletedPhotos == DeleteNewPhotos(s).deleted
    ensures r.screen.pictureUrls == []
    ensures s.eventItem.None? || s.eventGroup.None? ==>
              r.screen == s.(pictureUrls := []) && r.segue.None?
    ensures s.eventItem.Some? && s.eventGroup.Some? && !storeDeleted ==>
              r.screen == s.(pictureUrls := []) && r.segue == Some(ToHome)
    ensures s.eventItem.Some? && s.eventGroup.Some? && storeDeleted ==>
              && r.screen.eventItem.None?
              && (r.segue == Some(ToHome) <==> r.screen.eventGroup.None?)
              && (r.screen.eventGroup.Some? ==>
                    r.segue == Some(ToDoneItemDeleted) &&
                    r.screen.eventGroup.value.items ==
                      RemoveFromGroup(s.eventGroup.value.items, s.eventItem.value.base) &&
                    |r.screen.eventGroup.value.items| > 0)
              && (r.screen.eventGroup.None? ==>
                    RemoveFromGroup(s.eventGroup.value.items, s.eventItem.value.base) == [])
    ensures s.eventItem.Some? && s.eventGroup.Some? && storeDeleted ==>
              && r.screen.(eventGroup := s.eventGroup) == s.(pictureUrls := [], eventItem := None)
              && (r.screen.eventGroup.Some? ==> r.screen.eventGroup.value.id == s.eventGroup.value.id)
  {
    var cleaned := DeleteNewPhotos(s);
    var s1 := cleaned.screen;
    match (s.eventItem, s.eventGroup)
    case (Some(item), Some(g)) =>
      if storeDeleted then
        var remaining := RemoveFromGroup(g.items, item.base);
        if |remaining| == 0 then
          DeleteOutcome(s1.(eventItem := None, eventGroup := None), cleaned.deleted, Some(ToHome))
        else
          DeleteOutcome(s1.(eventItem := None, eventGroup := Some(g.(items := remaining))),
                        cleaned.deleted, Some(ToDoneItemDeleted))
      else
        DeleteOutcome(s1, cleaned.deleted, Some(ToHome))
    case _ => DeleteOutcome(s1, cleaned.deleted, None)
  }

  // ---------------------------------------------------------------- saving an edit

  datatype EditOutcome = EditOutcome(
    item: EditedItem,
    deletedPhotos: seq<string>,
    newEventItem: Option<NutEventItem>,
    groups: GroupUpdate)

  /** The edited fields written back into the item; a meal's slots come from the pending list. */
  function ApplyEdits(item: EditedItem, s: Screen, ph: Placeholders): (r: EditedItem)
    requires s.titleText.Some?
    ensures r.base.title == s.titleText.value && r.base.time == s.eventTime
    ensures r.base.notes == FilteredNotesText(s, ph) && r.base.location == FilteredLocationText(s, ph)
    ensures item.kind.Meal? ==> r.kind == Meal(ItemToImageUrl(s.pictureUrls, 0),
                                               ItemToImageUrl(s.pictureUrls, 1),
                                               ItemToImageUrl(s.pictureUrls, 2))
    ensures !item.kind.Meal? ==> r.kind == item.kind
    ensures r.base.(title := item.base.title, time := item.base.time,
                    notes := item.base.notes, location := item.base.location) == item.base
  {
    var base := item.base.(title := s.titleText.value, time := s.eventTime,
                           notes := FilteredNotesText(s, ph), location := FilteredLocationText(s, ph));
    match item.kind
    case Meal(_, _, _) =>
      var slots := Slots(s.pictureUrls);
      EditedItem(base, Meal(slots[0], slots[1], slots[2]))
    case _ => EditedItem(base, item.kind)
  }

  /**
   * The group's items once the edited item has changed in place: the group holds
   * the same object, so the element that is the edited item shows its new state.
   * Items are values here, so "is the edited item" is read as "equals it".
   */
  function ReplaceItem(items: seq<NutEventItem>, before: NutEventItem, after: NutEventItem): (r: seq<NutEventItem>)
    ensures |r| == |items|
    ensures forall i | 0 <= i < |items| :: r[i] == (if items[i] == before then after else items[i])
  {
    if |items| == 0 then []
    else [if items[0] == before then after else items[0]] + ReplaceItem(items[1..], before, after)
  }

  /** Changing the item back undoes the in-place edit, unless its new state was already in the group. */
  lemma ReplaceItemRoundTrip(items: seq<NutEventItem>, before: NutEventItem, after: NutEventItem)
    requires after !in items
    ensures ReplaceItem(ReplaceItem(items, before, after), after, before) == items
  {
  }

  /** The group, if any, after the edited item changed in place; the group's id is not recomputed. */
  function EditInGroup(group: Option<Group>, before: NutEventItem, after: NutEventItem): (r: Option<Group>)
    ensures r.None? <==> group.None?
    ensures r.Some? ==> r.value.id == group.value.id && |r.value.items| == |group.value.items|
  {
    match group
    case Some(g) => Some(g.(items := ReplaceItem(g.items, before, after)))
    case None => None
  }

  /**
   * `updateCurrentEvent` for a meal or workout (other items are left alone, None).
   * The edit is made in place on the item, which the group also holds, and then
   * `saveChanges()` runs on it: `dirty` is the item's own `changed()` answer
   * (meals and workouts override it) and `ctx` is what the store reports.
   */
  function UpdateCurrentEvent(s: Screen, ph: Placeholders, dirty: bool, ctx: StoreContext): (r: Option<EditOutcome>)
    requires s.eventItem.Some? && !s.eventItem.value.kind.OtherKind? ==> s.titleText.Some?
    ensures r.Some? <==> s.eventItem.Some? && !s.eventItem.value.kind.OtherKind?
    ensures r.Some? ==> r.value.item.kind == ApplyEdits(s.eventItem.value, s, ph).kind
    ensures r.Some? ==>
              r.value.item.base.(eventItem := s.eventItem.value.base.eventItem) ==
              ApplyEdits(s.eventItem.value, s, ph).base
    ensures r.Some? && !dirty ==> r.value.item == ApplyEdits(s.eventItem.value, s, ph)
    ensures r.Some? && dirty ==>
              && r.value.item.base.eventItem.title == s.titleText
              && r.value.item.base.eventItem.notes == Some(FilteredNotesText(s, ph))
              && r.value.item.base.eventItem.time == Some(s.eventTime)
    ensures r.Some? && dirty && ctx.hasContext ==>
              && r.value.item.base.eventItem.modifiedTime == Some(ctx.now)
              && r.value.item.base.eventItem.userid == ctx.currentUserId
    ensures r.Some? ==> r.value.item.base == SaveWith(ApplyEdits(s.eventItem.value, s, ph).base, dirty, ctx).item
    ensures r.Some? ==>
              forall u :: u in r.value.deletedPhotos <==>
                u in ItemPhotoUrlArray(s.eventItem.value) && u !in s.pictureUrls
    ensures r.Some? ==> (r.value.newEventItem.Some? <==> dirty && ctx.hasContext && ctx.storeSaved)
    ensures r.Some? && r.value.newEventItem.Some? ==> r.value.newEventItem == Some(r.value.item.base)
    ensures r.Some? && r.value.newEventItem.None? ==>
              r.value.groups ==
              GroupUpdate(EditInGroup(s.eventGroup, s.eventItem.value.base, r.value.item.base), Some(r.value.item.base))
    ensures r.Some? && r.value.newEventItem.Some? ==>
              r.value.groups ==
              UpdateItemAndGroup(EditInGroup(s.eventGroup, s.eventItem.value.base, r.value.item.base),
                                 Some(r.value.item.base), Some(r.value.item.base))
  {
    match s.eventItem
    case Some(item) =>
      if item.kind.OtherKind? then None
      else
        var edited := ApplyEdits(item, s, ph);
        var deleted := Unprotected(ItemPhotoUrlArray(item), s.pictureUrls);
        var outcome := SaveWith(edited.base, dirty, ctx);
        var after := edited.(base := outcome.item);
        var group := EditInGroup(s.eventGroup, item.base, after.base);
        if outcome.saved then
          Some(EditOutcome(after, deleted, Some(after.base),
                           UpdateItemAndGroup(group, Some(after.base), Some(after.base))))
        else
          Some(EditOutcome(after, deleted, None, GroupUpdate(group, Some(after.base))))
    case None => None
  }

  /**
   * Saving an edit never appends to the group. The group, showing the edit made in
   * place, is kept exactly when the save failed or the item's id still matches it;
   * otherwise the saved item starts a one-item group.
   */
  lemma EditNeverGrowsGroup(s: Screen, ph: Placeholders, dirty: bool, ctx: StoreContext)
    requires s.eventItem.Some? && !s.eventItem.value.kind.OtherKind? && s.titleText.Some?
    ensures var r := UpdateCurrentEvent(s, ph, dirty, ctx).value;
            var inPlace := EditInGroup(s.eventGroup, s.eventItem.value.base, r.item.base);
            && (r.groups.group == inPlace <==>
                  || r.newEventItem.None?
                  || s.eventGroup.None?
                  || s.eventGroup.value.id == NutEventIdString(r.item.base))
            && (r.groups.group != inPlace ==>
                  r.groups.group == Some(Group(NutEventIdString(r.item.base), [r.item.base])))
            && (r.groups.group.Some? ==>
                  s.eventGroup.Some? &&
                  (|r.groups.group.value.items| == |s.eventGroup.value.items| || |r.groups.group.value.items| == 1))
  {
  }

  /**
   * Editing only the notes or time of an item that is alone in its group keeps
   * the group, and the group's one element is the edited item.
   */
  lemma EditShowsInKeptGroup(s: Screen, ph: Placeholders, dirty: bool, ctx: StoreContext)
    requires s.eventItem.Some? && !s.eventItem.value.kind.OtherKind?
    requires s.titleText == Some(s.eventItem.value.base.title)
    requires FilteredLocationText(s, ph) == s.eventItem.value.base.location
    requires s.eventGroup == Some(Group(NutEventIdString(s.eventItem.value.base), [s.eventItem.value.base]))
    ensures var r := UpdateCurrentEvent(s, ph, dirty, ctx).value;
            r.groups.group == Some(Group(NutEventIdString(s.eventItem.value.base), [r.item.base]))
  {
    var r := UpdateCurrentEvent(s, ph, dirty, ctx).value;
    assert NutEventIdString(r.item.base) == NutEventIdString(s.eventItem.value.base);
    assert ReplaceItem([s.eventItem.value.base], s.eventItem.value.base, r.item.base) == [r.item.base];
  }

  /** After an edit is written back, the screen shows no further change against the updated item. */
  lemma WrittenBackEditIsUnchanged(s: Screen, ph: Placeholders, dirty: bool, ctx: StoreContext)
    requires s.eventItem.Some? && !s.eventItem.value.kind.OtherKind?
    requires s.titleText.Some? && s.notesText.Some? && s.locationText.Some?
    ensures var r := UpdateCurrentEvent(s, ph, dirty, ctx).value;
            !ExistingEventChanged(s.(eventItem := Some(r.item)), ph)
  {
  }

  /** A meal saved with up to three real pending URLs ends up with exactly that photo list. */
  lemma WrittenBackPhotosArePending(s: Screen, ph: Placeholders, dirty: bool, ctx: StoreContext)
    requires s.eventItem.Some? && s.eventItem.value.kind.Meal? && s.titleText.Some?
    requires |s.pictureUrls| <= MaxPhotos && forall u | u in s.pictureUrls :: u != ""
    ensures ItemPhotoUrlArray(UpdateCurrentEvent(s, ph, dirty, ctx).value.item) == s.pictureUrls
  {
    var item := UpdateCurrentEvent(s, ph, dirty, ctx).value.item;
    SlotsRoundTrip(s.pictureUrls);
    assert [item.kind.photo, item.kind.photo2, item.kind.photo3] == Slots(s.pictureUrls);
  }

  /**
   * Notes cleared back to the placeholder are not reported as a change, although
   * writing the edit back would replace the stored notes with "".
   */
  lemma ClearedNotesGoUnnoticed(s: Screen, ph: Placeholders, dirty: bool, ctx: StoreContext)
    requires s.eventItem.Some? && s.eventItem.value.kind.Workout?
    requires s.titleText == Some(s.eventItem.value.base.title) && s.eventTime == s.eventItem.value.base.time
    requires s.notesText == Some(ph.notes) && s.eventItem.value.base.notes != ""
    ensures !ExistingEventChanged(s, ph)
    ensures UpdateCurrentEvent(s, ph, dirty, ctx).value.item.base.notes == ""
  {
  }

  /**
   * For an existing meal or workout, a visible save button means the write-back
   * would change the item; `ClearedNotesGoUnnoticed` shows the converse fails.
   */
  lemma VisibleSaveMeansEditChangesItem(s: Screen, ph: Placeholders)
    requires s.editExisting && s.eventItem.Some? && !s.eventItem.value.kind.OtherKind?
    requires s.titleText.Some? && s.notesText.Some? && s.locationText.Some?
    requires !SaveButtonHidden(s, ph)
    ensures ApplyEdits(s.eventItem.value, s, ph) != s.eventItem.value
  {
  }
}
