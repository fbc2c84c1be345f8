# Tidepool mobile: glucose upload records and Nutshell event editing, in Dafny

This project models three pieces of sequential logic from the Tidepool iOS
client as pure Dafny functions over immutable records, and proves their
properties.

* **Blood-glucose upload** (`glucose_type.dfy`, `glucose_upload.dfy`, `bundle_ids.dfy`).
  `determineTypeOfBG` tags a HealthKit glucose sample "cbg" or "smbg" by ordered
  whitelist rules over its source name and bundle identifier. `prepareDataForUpload`
  turns a batch of samples into upload records in one pass. It skips non-quantity
  samples and drops values outside [0, 1000] mg/dL. It adds the low (< 40) or high
  (> 400) out-of-range annotation, marks user-entered smbg readings `subType = "manual"`,
  and moves a Date under "Receiver Display Time" into `deviceTime` before the
  remaining metadata becomes the payload. `filterSamples` passes the batch through.
* **NutEventItem** (`nut_event_item.dfy`). The editable copy of a stored meal or
  workout event. The model covers its construction defaults, the group identity
  string `prefix + title + location`, the `changed()` dirty check and the
  `copyChanges()` copy-back that clears it, `saveChanges()` with its effect on the stored record, and the
  `!=` operator, which compares notes and time only.
* **Add/edit event screen** (`event_photos.dfy`, `event_edit.dfy`). The
  decisions of `EventAddOrEditViewController` without the UI:
  * the pending photo list, at most three URLs shown in three slots with "" for an empty slot;
  * placeholder filtering of the location and notes fields;
  * the "new event changed" and "existing event changed" predicates, and the save-button decision;
  * which photo files are deleted on cancel, on return from the photo viewer and on save;
  * the write-back of an edited meal or workout, which edits the item in place (and so the group that holds it) before saving;
  * the group bookkeeping after a save or a delete.

`options.dfy` holds the `Option` type that stands for Swift optionals.

Modelling choices:
* A glucose value is a `real`, compared only.
* Dates are opaque integers, only compared and copied.
* The ISO-8601 formatter is a `Date -> string` parameter.
* The clock and the calendar's current offset are parameters of `FromEventItem`.
* The store's answers are parameters: whether a save or a delete succeeded, and whether a managed-object context exists. `saveChanges()` also takes the clock and the signed-in user id, gathered in a `StoreContext`.
* Items are values. The edited item is the same object as its entry in the group, so the in-place edit is modelled by replacing the group entry equal to the item before the edit.
* The placeholder strings are an opaque `Placeholders` record.
* Foundation's `components(separatedBy: ".")` is `BundleIds.Components`. It is pinned down by two lemmas: joining the components back gives the string, and it is the only dot-free decomposition that does so.

Assumptions about files that are not part of this model:
* `NutMeal`, `NutWorkout` and `NutEvent` are not part of this model.
* A meal's `photoUrlArray()` is taken to be its non-empty `photo`, `photo2`, `photo3` slots, in order. Other items use the base class's empty list.
* A group is an identity string plus its items. `NutEvent(firstEvent:)` takes the first item's identity. `addEvent` appends the item and returns it.
* The stored record's identity string is taken to be the updated item's identity string.
* The `HKMetadataKeyWasUserEntered` key is taken to be the string "HKWasUserEntered".
* `addMetadata` is not part of this model. The residual metadata is taken to become the payload, with an empty remainder omitted.

One behaviour of the code is worth knowing, and `EventEdit.ClearedNotesGoUnnoticed` proves it of the model. If the user clears an existing event's notes, the field falls back to its placeholder. `existingEventChanged` then reports no change, yet writing the edit back replaces the stored notes with "". Clearing the field does not hide the save button at once: the text-change handler evaluates the button while the field is still "", so it shows. Once the placeholder is restored, the next evaluation hides the button unless another field changed. Cancel then leaves without the discard alert.

## Model

| member | source | states |
|---|---|---|
| `GlucoseType.DetermineTypeOfBG` | TidepoolMobile/DataModel/HealthKit/HealthKitUploadTypeBloodGlucose.swift:54-100 | Whitelisted source name, whitelisted bundle id, ".Loop" suffix or a "loopkit" component each give cbg; smbg only when no rule holds |
| `GlucoseType.AnyWhitelistedComponent` | TidepoolMobile/DataModel/HealthKit/HealthKitUploadTypeBloodGlucose.swift:90-96 | The component loop finds a match iff some component is in the component whitelist |
| `GlucoseType.ClassifierMatchesComponentReading` | TidepoolMobile/DataModel/HealthKit/HealthKitUploadTypeBloodGlucose.swift:71-99 | cbg iff the provenance is continuous when read through components: the ".Loop" suffix is a last component "Loop" after a dot; smbg iff it is not |
| `GlucoseType.SourceNameWins` | TidepoolMobile/DataModel/HealthKit/HealthKitUploadTypeBloodGlucose.swift:71-75 | Source name "Loop" or "BGMTool" yields "cbg" whatever the bundle id |
| `GlucoseType.DottedLoopSuffixIsCbg` | TidepoolMobile/DataModel/HealthKit/HealthKitUploadTypeBloodGlucose.swift:85-88 | "com.example.MyApp.Loop" is cbg by the suffix rule |
| `GlucoseType.GluedLoopSuffixIsSmbg` | TidepoolMobile/DataModel/HealthKit/HealthKitUploadTypeBloodGlucose.swift:85-99 | "x.MyAppLoop" matches no rule and is smbg |
| `GlucoseType.LoopkitComponentIsCbg` | TidepoolMobile/DataModel/HealthKit/HealthKitUploadTypeBloodGlucose.swift:90-96 | "com.acme.loopkit.ext" is cbg by the component rule |
| `GlucoseType.LoopkitSubstringIsSmbg` | TidepoolMobile/DataModel/HealthKit/HealthKitUploadTypeBloodGlucose.swift:90-99 | "com.acme.loopkitx" is smbg: components match exactly, not as substrings |
| `BundleIds.HasSuffix` | TidepoolMobile/DataModel/HealthKit/HealthKitUploadTypeBloodGlucose.swift:86 | True iff the string ends with the suffix, character by character; then the string is a prefix followed by the suffix |
| `BundleIds.Components` | TidepoolMobile/DataModel/HealthKit/HealthKitUploadTypeBloodGlucose.swift:91 | The split always has at least one component |
| `BundleIds.JoinComponents` | TidepoolMobile/DataModel/HealthKit/HealthKitUploadTypeBloodGlucose.swift:91 | Joining the dot-split components with "." gives back the bundle id |
| `BundleIds.ComponentsDotFree` | TidepoolMobile/DataModel/HealthKit/HealthKitUploadTypeBloodGlucose.swift:91 | No component contains a dot |
| `BundleIds.ComponentsUnique` | TidepoolMobile/DataModel/HealthKit/HealthKitUploadTypeBloodGlucose.swift:91 | Any dot-free list joining to the string is its split |
| `BundleIds.ComponentsAtDot` | TidepoolMobile/DataModel/HealthKit/HealthKitUploadTypeBloodGlucose.swift:91 | Splitting p + "." + q is splitting p then splitting q |
| `BundleIds.DotSuffixIsLastComponent` | TidepoolMobile/DataModel/HealthKit/HealthKitUploadTypeBloodGlucose.swift:85-91 | Ending in "." + w (w dot-free) iff there are at least two components and the last is w |
| `GlucoseUpload.FilterSamples` | TidepoolMobile/DataModel/HealthKit/HealthKitUploadTypeBloodGlucose.swift:30-33 | The glucose filter returns its input unchanged |
| `GlucoseUpload.OutOfRangeAnnotations` | TidepoolMobile/DataModel/HealthKit/HealthKitUploadTypeBloodGlucose.swift:127-150 | Exactly the low annotation (threshold 40) iff value < 40, exactly the high one (threshold 400) iff value > 400, none iff 40 ≤ value ≤ 400 |
| `GlucoseUpload.ManualMark` | TidepoolMobile/DataModel/HealthKit/HealthKitUploadTypeBloodGlucose.swift:152-160 | "manual" iff the type is smbg and the metadata holds the user-entered flag as Bool true |
| `GlucoseUpload.ReceiverTime` | TidepoolMobile/DataModel/HealthKit/HealthKitUploadTypeBloodGlucose.swift:161-168 | A receiver time is found iff the key holds a Date, and it is that Date |
| `GlucoseUpload.Residual` | TidepoolMobile/DataModel/HealthKit/HealthKitUploadTypeBloodGlucose.swift:161-171 | The receiver key is removed only when its Date was consumed; every other entry stays |
| `GlucoseUpload.Payload` | TidepoolMobile/DataModel/HealthKit/HealthKitUploadTypeBloodGlucose.swift:170-171 | The residual metadata is the payload, omitted when empty |
| `GlucoseUpload.UserEnteredSmbgIsManual` | TidepoolMobile/DataModel/HealthKit/HealthKitUploadTypeBloodGlucose.swift:152-160 | An in-range smbg sample flagged as user-entered uploads with tag "smbg" and subType "manual" |
| `GlucoseUpload.OtherMetadataReachesPayload` | TidepoolMobile/DataModel/HealthKit/HealthKitUploadTypeBloodGlucose.swift:161-171 | Any metadata key other than the receiver-time key reaches the uploaded payload with its value |
| `GlucoseUpload.PrepareSample` | TidepoolMobile/DataModel/HealthKit/HealthKitUploadTypeBloodGlucose.swift:106-178 | A record iff the sample is a quantity sample with 0 ≤ value ≤ 1000. The record is uploadable, copies value and identity, carries the classifier's tag and the annotation. subType is the manual mark of that tag and the metadata, so it appears only on smbg. The payload is the residual metadata. deviceTime appears iff a Date receiver time exists, and then the receiver key is not in the payload |
| `GlucoseUpload.Uploads` | TidepoolMobile/DataModel/HealthKit/HealthKitUploadTypeBloodGlucose.swift:105-180 | The batch yields no more records than samples, all uploadable |
| `GlucoseUpload.PrepareDataForUpload` | TidepoolMobile/DataModel/HealthKit/HealthKitUploadTypeBloodGlucose.swift:102-181 | The single-pass loop produces exactly the left-fold reference result of the filtered batch, bounded and uploadable |
| `GlucoseUpload.UploadsAppend` | TidepoolMobile/DataModel/HealthKit/HealthKitUploadTypeBloodGlucose.swift:106-178 | The records of a concatenated batch are the concatenation of each part's records |
| `GlucoseUpload.MalformedSampleIsIsolated` | TidepoolMobile/DataModel/HealthKit/HealthKitUploadTypeBloodGlucose.swift:176-178 | A non-quantity sample contributes nothing and does not disturb its neighbours |
| `GlucoseUpload.UploadsFollowAcceptedIndices` | TidepoolMobile/DataModel/HealthKit/HealthKitUploadTypeBloodGlucose.swift:105-180 | There are as many records as accepted samples, and record k is the record of the k-th accepted sample |
| `GlucoseUpload.AcceptedIndicesExact` | TidepoolMobile/DataModel/HealthKit/HealthKitUploadTypeBloodGlucose.swift:105-180 | A position is accepted iff its sample passes the gate |
| `GlucoseUpload.UploadsIsOrderedSubsequence` | TidepoolMobile/DataModel/HealthKit/HealthKitUploadTypeBloodGlucose.swift:105-180 | Record k comes from the k-th accepted sample; positions strictly increase; a sample is represented iff it passes the gate |
| `GlucoseUpload.GateAndThresholdBoundaries` | TidepoolMobile/DataModel/HealthKit/HealthKitUploadTypeBloodGlucose.swift:118-139 | -1 and 1000.1 are dropped, 0 and 1000 kept; 39.9 is low, 40 and 400 are unannotated, 400.1 is high |
| `GlucoseUpload.ContinuousReadingIsNeverManual` | TidepoolMobile/DataModel/HealthKit/HealthKitUploadTypeBloodGlucose.swift:152-160 | A user-entered reading from source "Loop" is cbg and gets no subType |
| `GlucoseUpload.ReceiverTimeIsScrubbed` | TidepoolMobile/DataModel/HealthKit/HealthKitUploadTypeBloodGlucose.swift:161-171 | Receiver Date plus "foo" gives the formatted deviceTime and a payload holding only "foo" |
| `GlucoseUpload.NonDateReceiverTimeStays` | TidepoolMobile/DataModel/HealthKit/HealthKitUploadTypeBloodGlucose.swift:162-168 | A non-Date value under the receiver key gives no deviceTime and stays in the payload |
| `NutEventItems.FromEventItem` | Nutshell/DataModel/NutEventItem.swift:22-44 | nil title and notes become "", location starts "", the cracked flag is true only when stored true, a stored offset in minutes becomes that many minutes times 60 seconds, and a missing time or offset falls back to the clock or the current calendar offset |
| `NutEventItems.Prefix` | Nutshell/DataModel/NutEventItem.swift:54-57 | The base prefix is empty |
| `NutEventItems.NutEventIdString` | Nutshell/DataModel/NutEventItem.swift:46-52 | The id splits into exactly the title followed by the location |
| `NutEventItems.SameGroupIff` | Nutshell/DataModel/NutEventItem.swift:46-52 | Two ids are equal iff title + location agree |
| `NutEventItems.IdStringAliases` | Nutshell/DataModel/NutEventItem.swift:47-51 | ("A at Home", "") and ("A at ", "Home") share an id |
| `NutEventItems.CopyChanges` | Nutshell/DataModel/NutEventItem.swift:114-119 | Title, notes, cracked flag and time are written to the record; nothing else changes |
| `NutEventItems.CleanIffCopyIsNoOp` | Nutshell/DataModel/NutEventItem.swift:92-119 | changed() is false iff cracked flag, time and user id are present and the copy-back changes nothing except nil title or notes becoming "" |
| `NutEventItems.Changed` | Nutshell/DataModel/NutEventItem.swift:92-112 | A differing title or notes (nil read as ""), a nil or differing cracked flag or time, or a nil user id each make the item changed; a clean item has all three stored |
| `NutEventItems.NotEqual` | Nutshell/DataModel/NutEventItem.swift:131-134 | Not different iff notes and time agree; different items are never equal |
| `NutEventItems.CopyClearsChanged` | Nutshell/DataModel/NutEventItem.swift:92-119 | After copyChanges, changed() holds iff the user id is nil |
| `NutEventItems.FreshItemChangedIff` | Nutshell/DataModel/NutEventItem.swift:22-112 | A freshly built item is clean iff the record has cracked flag, time and user id |
| `NutEventItems.SaveWith` | Nutshell/DataModel/NutEventItem.swift:67-78 | Given the receiver's changed() answer: clean returns false and touches nothing. Saved iff dirty, a context exists and the store saved. Dirty without a context: exactly the copy-back. Dirty with a context: the copy-back plus the modified time and user id. The time-zone offset and the item's own fields are never touched |
| `NutEventItems.SaveChanges` | Nutshell/DataModel/NutEventItem.swift:67-78 | Unchanged: returns false and copies nothing. Saved iff changed, a context exists and the store saved. When changed, the copy-back happens; with a context, the modified time and user id are set; without one, the record is exactly the copy-back. The time-zone offset is never touched |
| `NutEventItems.SavedItemIsClean` | Nutshell/DataModel/NutEventItem.swift:67-119 | After a save that leaves a user id on the record, changed() is false |
| `NutEventItems.NotEqualIgnoresIdentity` | Nutshell/DataModel/NutEventItem.swift:131-134 | != holds iff notes or time differ; title and location are ignored; irreflexive and symmetric |
| `NutEventItems.PhotoUrlArray` | Nutshell/DataModel/NutEventItem.swift:125-127 | The base photo list is empty |
| `NutEventItems.FirstPictureUrl` | Nutshell/DataModel/NutEventItem.swift:121-123 | The base first picture is "" |
| `EventPhotos.PictureUrlEmptySlots` | Nutshell/ViewControllers/EventAddOrEditViewController.swift:462-464 | Empty slots plus pending photos make three; no empty slot iff three photos |
| `EventPhotos.ItemToImageUrl` | Nutshell/ViewControllers/EventAddOrEditViewController.swift:466-472 | Slot i shows the i-th URL, or "" when i ≥ count |
| `EventPhotos.AppendPictureUrl` | Nutshell/ViewControllers/EventAddOrEditViewController.swift:488-500 | Appends only below three; a full list is unchanged; the bound of three is kept |
| `EventPhotos.AppendFillsFirstEmptySlot` | Nutshell/ViewControllers/EventAddOrEditViewController.swift:462-500 | Appending to a list with room uses one slot, shows the URL in the first empty slot and leaves earlier slots alone |
| `EventPhotos.Slots` | Nutshell/ViewControllers/EventAddOrEditViewController.swift:717-719 | The three values written to photo, photo2, photo3 are slots 0, 1, 2 |
| `EventPhotos.SlotsRoundTrip` | Nutshell/ViewControllers/EventAddOrEditViewController.swift:711-719 | Up to three non-empty URLs written into the slots read back as the same list |
| `EventPhotos.Unprotected` | Nutshell/ViewControllers/EventAddOrEditViewController.swift:833-838 | The deletion loop removes exactly the unprotected URLs, each occurrence once |
| `EventEdit.ItemPhotoUrlArray` | Nutshell/ViewControllers/EventAddOrEditViewController.swift:187-193 | At most three URLs, none empty; for a meal, exactly the non-empty ones among photo, photo2 and photo3 |
| `EventEdit.FilteredLocationText` | Nutshell/ViewControllers/EventAddOrEditViewController.swift:678-686 | "" or the shown non-placeholder text; any shown non-placeholder text is returned as is |
| `EventEdit.FilteredNotesText` | Nutshell/ViewControllers/EventAddOrEditViewController.swift:688-696 | "" or the shown non-placeholder text; any shown non-placeholder text is returned as is |
| `EventEdit.NewEventChanged` | Nutshell/ViewControllers/EventAddOrEditViewController.swift:622-640 | Unchanged iff there is no group, every field shows its placeholder and no photo is pending |
| `EventEdit.FilteredText` | Nutshell/ViewControllers/EventAddOrEditViewController.swift:678-696 | nil or placeholder gives ""; any other text is returned unchanged |
| `EventEdit.FilteredTextIdempotent` | Nutshell/ViewControllers/EventAddOrEditViewController.swift:678-696 | Filtering a filtered text changes nothing |
| `EventEdit.UnchangedNewEventIsBlank` | Nutshell/ViewControllers/EventAddOrEditViewController.swift:622-640 | When newEventChanged is false there is no group, filtered location and notes are "", and all slots are empty |
| `EventEdit.ContentMakesNewEventChanged` | Nutshell/ViewControllers/EventAddOrEditViewController.swift:622-640 | Any kept location or notes text, or any photo, makes the new event changed |
| `EventEdit.ExistingEventChanged` | Nutshell/ViewControllers/EventAddOrEditViewController.swift:642-676 | No item: false. A changed title or time: true. Notes that differ and are not the placeholder: true. A meal's location that differs and is not the placeholder: true. A meal whose other fields match or show placeholders: true iff photo/photo2/photo3 differ from slots 0/1/2. A workout whose title, time and notes match (or notes show the placeholder): false |
| `EventEdit.PlaceholderIsNoChange` | Nutshell/ViewControllers/EventAddOrEditViewController.swift:648-660 | A notes or location placeholder is judged as if the stored value were shown |
| `EventEdit.ClearedNotesGoUnnoticed` | Nutshell/ViewControllers/EventAddOrEditViewController.swift:648-651 | Notes cleared to the placeholder report no change, yet the write-back stores "" |
| `EventEdit.SaveButtonHidden` | Nutshell/ViewControllers/EventAddOrEditViewController.swift:244-258 | Hidden while the date picker shows. Editing: hidden iff not changed. New: hidden iff unchanged, empty title or placeholder title |
| `EventEdit.VisibleSaveMeansSomethingToSave` | Nutshell/ViewControllers/EventAddOrEditViewController.swift:244-258 | A visible button means no date picker and a change; for a new event, also a real title |
| `EventEdit.VisibleSaveMeansEditChangesItem` | Nutshell/ViewControllers/EventAddOrEditViewController.swift:244-258 | When editing a meal or workout, a visible button means writing the edit back changes the item |
| `EventEdit.PreExistingPhoto` | Nutshell/ViewControllers/EventAddOrEditViewController.swift:823-831 | Pre-existing iff there is an item whose photo list holds the URL; only a meal's non-empty URL can be |
| `EventEdit.DeleteNewPhotos` | Nutshell/ViewControllers/EventAddOrEditViewController.swift:832-840 | Deletes exactly the pending URLs the item did not have, with their multiplicity, then empties the list |
| `EventEdit.ReturnFromPhotoViewer` | Nutshell/ViewControllers/EventAddOrEditViewController.swift:145-164 | A pending URL is deleted iff neither pre-existing nor in the viewer's list; the pending list becomes the viewer's list |
| `EventEdit.PreExistingPhotosSurvive` | Nutshell/ViewControllers/EventAddOrEditViewController.swift:823-840 | A photo the item already had is never deleted by either cleanup |
| `EventEdit.UpdateItemAndGroup` | Nutshell/ViewControllers/EventAddOrEditViewController.swift:802-821 | With group and new item: the resulting group's id is the new item's. Matching id: kept when the current item already matches, else the item is appended. Other id: a new one-item group |
| `EventEdit.UpdateItemAndGroupSettles` | Nutshell/ViewControllers/EventAddOrEditViewController.swift:802-821 | Running the fix-up again on its own result changes nothing |
| `EventEdit.RemoveFromGroup` | Nutshell/ViewControllers/EventAddOrEditViewController.swift:847-850 | Keeps exactly the items != the deleted one, each with its multiplicity; the deleted item is gone |
| `EventEdit.RemoveFromGroupAppend` | Nutshell/ViewControllers/EventAddOrEditViewController.swift:847-850 | The filter distributes over concatenation, so survivors keep their order |
| `EventEdit.RemovalIsByNotesAndTime` | Nutshell/ViewControllers/EventAddOrEditViewController.swift:847-850 | A group member is removed iff it shares notes and time with the deleted item |
| `EventEdit.DeleteItemAndReturn` | Nutshell/ViewControllers/EventAddOrEditViewController.swift:842-869 | New photos deleted first. With item and group: a failed delete goes home. A successful one filters the group, clears the item, and goes home iff the group is emptied, else to the group list. Nothing else on the screen changes and a kept group keeps its id |
| `EventEdit.ApplyEdits` | Nutshell/ViewControllers/EventAddOrEditViewController.swift:698-737 | Title, time, filtered notes and filtered location written back; a meal's slots come from the pending list; nothing else changes |
| `EventEdit.UpdateCurrentEvent` | Nutshell/ViewControllers/EventAddOrEditViewController.swift:698-747 | Only meals and workouts are updated. The item's fields carry the edits; when changed, its record gets the copy-back, and with a context also the modified time and user id. Deleted photos are the old ones not pending. The group shows the edit in place. A saved edit becomes the new event item and goes through the group fix-up; an unsaved one keeps the edited group |
| `EventEdit.EditNeverGrowsGroup` | Nutshell/ViewControllers/EventAddOrEditViewController.swift:722-725 | The group, edited in place, is kept iff the save failed, there is no group, or its id still matches the item; otherwise it is the item's one-item group. It never grows |
| `EventEdit.EditShowsInKeptGroup` | Nutshell/ViewControllers/EventAddOrEditViewController.swift:700-725 | An item alone in its group, edited without touching title or location, leaves the group's one element equal to the edited item |
| `EventEdit.ReplaceItem` | Nutshell/ViewControllers/EventAddOrEditViewController.swift:705-708 | Same length; each entry equal to the item before the edit becomes the edited item, the others stay |
| `EventEdit.ReplaceItemRoundTrip` | Nutshell/ViewControllers/EventAddOrEditViewController.swift:705-708 | Replacing back undoes the replacement when the new state was not already in the group |
| `EventEdit.WrittenBackEditIsUnchanged` | Nutshell/ViewControllers/EventAddOrEditViewController.swift:642-747 | After the write-back the screen reports no change against the updated item |
| `EventEdit.WrittenBackPhotosArePending` | Nutshell/ViewControllers/EventAddOrEditViewController.swift:711-719 | A meal saved with up to three real pending URLs has exactly that photo list |

## Left out

- HealthKit and Foundation calls are not modelled: unit conversion, sample-type lookup, logging and ISO date formatting. The formatter is a parameter.
- Swift `Double` is modelled as `real`. A NaN glucose value, which passes the `value < 0 || value > 1000` test, is not represented.
- `GlucoseUpload.ManualMark`: an `NSNumber` stored under the user-entered key, which Swift may bridge to `Bool`, is not treated as a flag; only a Bool value counts.
- The commented-out Dexcom-only filter in `filterSamples` is dead code and not modelled.
- `addCommonFields` and `addMetadata` live in a base class that is not part of this model. The common fields are an opaque identity copied verbatim.
- Persistence is not modelled: managed-object contexts, `deleteItem`, the database save and `moc.refresh`. Its outcomes are boolean parameters.
- `containsSearchString` is not modelled: it relies on Foundation's localized case-insensitive matching.
- `EventEdit.UpdateCurrentEvent`: the item's `changed()` answer is a parameter, because the meal and workout overrides are in `NutMeal` and `NutWorkout`, which are not part of this model. Any extra fields their `copyChanges()` overrides write (location, photos) are not on the modelled record.
- `EventEdit.UpdateCurrentEvent`: the source hands the stored record to the group fix-up as the new event item; the model hands it the saved item itself, whose identity string is taken to be the record's.
- `EventEdit.ReplaceItem`: object identity is read as equality, so a group holding a second entry equal to the edited item would see both replaced, where the source edits one object.
- `updateNewEvent` is not modelled: it creates the meal through `NutEvent.createMealEvent`, which is not part of this model, and holds debug title commands.
- UIKit glue is not modelled: layout, keyboard handling, alerts, image picking, JPEG writes, metrics and segue plumbing.
- Date handling is not modelled: date labels, date-picker time-zone and DST adjustment.
- Strings are compared as sequences of characters. Swift's `String ==` uses Unicode canonical equivalence, so two differently normalised texts that Swift treats as equal count as different here. Inputs are assumed to be in one normal form.
- `EventEdit.ApplyEdits` and `EventEdit.UpdateCurrentEvent` require a title text. The source force-unwraps `titleTextField.text!` (EventAddOrEditViewController.swift:705, :733), which would crash on nil; that crash path is not modelled.
- Debug paths are not modelled: test mode, demo data and the crash test.
- `AddEventViewController.swift`, `NoteListGraphCell.swift`, `EventPhotoCollectView.swift` and `TPMenuButton.swift` are pure UI.
- `Activity.swift`, `TimeChange.swift` and `BloodKetone.swift` only copy JSON fields into the store.
- `MealGraphData.swift` is graph rendering and not modelled.
- Determinism of the builder needs no proof: every member is a pure function.
