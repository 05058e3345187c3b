/**
 * The popup's two `localStorage` entries (src/popup/popup.js): `tabflow_enhanced_content`, the
 * last enhancement with the time it was saved, and `tabflow_enhancement_in_progress`, the marker
 * written while an enhancement runs so that a reopened popup can offer its results. Time is the
 * `Date.now()` value in milliseconds, passed in.
 */
module PopupSnapshots {
  import opened Common
  import opened Text
  import opened Records
  import opened PopupTags

  /** A saved enhancement is applied within a day of being saved. */
  const DayMs: int := 24 * 60 * 60 * 1000
  /** A marker is honoured within an hour of being written. */
  const HourMs: int := 60 * 60 * 1000

  /** `{ timestamp, data }` as `saveEnhancedContentToStorage` writes it. */
  datatype Snapshot = Snapshot(timestamp: int, data: Enhancement)

  /** The in-progress marker: the enhancement request, with the time it was written if any. */
  datatype Marker = Marker(timestamp: Option<int>, style: string)

  predicate IsRecentSnapshot(s: Snapshot, now: int) {
    now - s.timestamp < DayMs
  }

  /** `enhancementData.timestamp && now - timestamp < hour`: a missing or zero timestamp is
      falsy. */
  predicate IsRecentMarker(m: Marker, now: int) {
    m.timestamp.Some? && m.timestamp.value != 0 && now - m.timestamp.value < HourMs
  }

  class SnapshotStore {
    /** `tabflow_enhanced_content`. */
    var enhanced: Option<Snapshot>
    /** `tabflow_enhancement_in_progress`. */
    var inProgress: Option<Marker>

    constructor ()
      ensures enhanced == None && inProgress == None
    {
      enhanced := None;
      inProgress := None;
    }

    /** `saveEnhancedContentToStorage`: the enhancement, stamped with the current time,
        replaces any earlier one. */
    method SaveEnhanced(data: Enhancement, now: int)
      modifies this
      ensures enhanced == Some(Snapshot(now, data)) && inProgress == old(inProgress)
    {
      enhanced := Some(Snapshot(now, data));
    }

    /** `loadEnhancedContentFromStorage`: a saved enhancement younger than a day is applied to
        the preview and removed (applying saves it again, and the removal follows); an older
        one stays where it is, and so does the preview. */
    method LoadInto(preview: Preview, now: int) returns (loaded: bool)
      requires preview.Valid()
      modifies this, preview
      ensures preview.Valid()
      ensures loaded <==> old(enhanced).Some? && IsRecentSnapshot(old(enhanced).value, now)
      ensures loaded ==> enhanced == None
      ensures !loaded ==> enhanced == old(enhanced)
      ensures inProgress == old(inProgress)
      ensures !loaded ==> preview.tags == old(preview.tags) && preview.description == old(preview.description)
                          && preview.pageTags == old(preview.pageTags) && preview.tagInput == old(preview.tagInput)
      ensures loaded ==> ShowsEnhancement(preview, old(enhanced).value.data, old(preview.tags),
                                          old(preview.pageTags), old(preview.tagInput), old(preview.description))
    {
      loaded := false;
      if enhanced.Some? && IsRecentSnapshot(enhanced.value, now) {
        var data := enhanced.value.data;
        preview.ApplyEnhancement(Some(data));
        SaveEnhanced(data, now);
        enhanced := None;
        loaded := true;
      }
    }

    /** The marker as the popup writes it when an enhancement starts: the request only, with no
        timestamp. */
    method MarkInProgressAsWritten(style: string)
      modifies this
      ensures inProgress == Some(Marker(None, style)) && enhanced == old(enhanced)
    {
      inProgress := Some(Marker(None, style));
    }

    /** The marker stamped with the time the enhancement started, as the hour check expects. */
    method MarkInProgress(style: string, now: int)
      modifies this
      ensures inProgress == Some(Marker(Some(now), style)) && enhanced == old(enhanced)
    {
      inProgress := Some(Marker(Some(now), style));
    }

    /** The enhancement settled: a result is saved, and the marker goes either way. */
    method FinishEnhancement(content: Option<Enhancement>, now: int)
      modifies this
      ensures inProgress == None
      ensures content.Some? ==> enhanced == Some(Snapshot(now, content.value))
      ensures content.None? ==> enhanced == old(enhanced)
    {
      if content.Some? {
        SaveEnhanced(content.value, now);
      }
      inProgress := None;
    }

    /** `checkForInProgressEnhancement`: a recent marker asks the user whether to look at the
        results and stays until they answer; any other marker is removed. */
    method CheckInProgress(now: int) returns (prompt: bool)
      modifies this
      ensures prompt <==> old(inProgress).Some? && IsRecentMarker(old(inProgress).value, now)
      ensures prompt ==> inProgress == old(inProgress)
      ensures !prompt ==> inProgress == None
      ensures enhanced == old(enhanced)
    {
      prompt := inProgress.Some? && IsRecentMarker(inProgress.value, now);
      if !prompt {
        inProgress := None;
      }
    }

    /** "Check results": the saved enhancement is loaded, then the marker is removed. */
    method CheckResults(preview: Preview, now: int) returns (loaded: bool)
      requires preview.Valid()
      modifies this, preview
      ensures preview.Valid()
      ensures loaded <==> old(enhanced).Some? && IsRecentSnapshot(old(enhanced).value, now)
      ensures loaded ==> enhanced == None
      ensures !loaded ==> enhanced == old(enhanced)
      ensures inProgress == None
      ensures !loaded ==> preview.tags == old(preview.tags) && preview.description == old(preview.description)
                          && preview.pageTags == old(preview.pageTags) && preview.tagInput == old(preview.tagInput)
      ensures loaded ==> ShowsEnhancement(preview, old(enhanced).value.data, old(preview.tags),
                                          old(preview.pageTags), old(preview.tagInput), old(preview.description))
    {
      loaded := LoadInto(preview, now);
      inProgress := None;
    }

    /** "Dismiss": the marker is removed, the saved enhancement stays. */
    method Dismiss()
      modifies this
      ensures inProgress == None && enhanced == old(enhanced)
    {
      inProgress := None;
    }
  }

  /** A popup reopened after an enhancement started never offers its results, however soon:
      the marker written at the start has no timestamp, so the check always discards it. */
  method ReopenAsWritten(style: string, now: int) returns (prompt: bool, markerKept: bool)
    ensures !prompt && !markerKept
  {
    var store := new SnapshotStore();
    store.MarkInProgressAsWritten(style);
    prompt := store.CheckInProgress(now);
    markerKept := store.inProgress.Some?;
  }

  /** With the marker stamped at `started`, a popup reopened within the hour offers the results
      and keeps the marker; later, it discards the marker without asking. */
  method Reopen(style: string, started: int, now: int) returns (prompt: bool, markerKept: bool)
    requires started != 0
    ensures prompt <==> now - started < HourMs
    ensures markerKept <==> prompt
  {
    var store := new SnapshotStore();
    store.MarkInProgress(style, started);
    prompt := store.CheckInProgress(now);
    markerKept := store.inProgress.Some?;
  }

  /** A saved enhancement is applied at most once: within the day the first load applies it
      and removes it; after the day it stays, but no later load applies it. */
  method LoadTwice(data: Enhancement, saved: int, now: int, later: int)
    returns (first: bool, second: bool)
    requires now <= later
    ensures first <==> now - saved < DayMs
    ensures !second
  {
    var store := new SnapshotStore();
    var preview := new Preview("");
    store.SaveEnhanced(data, saved);
    first := store.LoadInto(preview, now);
    second := store.LoadInto(preview, later);
  }
}
