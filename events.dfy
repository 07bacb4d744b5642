/** The two writers. writeJsonEventsList flattens every setlist into an
    EventObject, collects them through EventsList.AddEvent and writes the
    list as `path + "list.json"`; writeJsonEventFiles writes each setlist to
    a file named after its date and its artist's slug. The output directory
    is a map from file name to what the file holds; writing a file replaces
    whatever was there (the source removes the file, then creates it). */
module Events {
  import opened SetlistTypes
  import Slug
  import Dates
  import Fetcher

  /** The flattened event of one setlist. Tour and SongsPlayed are never
      filled in by the source. */
  function Project(event: SetlistObject): EventObject {
    EventObject(
      Id := event.Id,
      Date := Dates.ReformatDate(event.EventDate),
      Venue := event.Venue.Name,
      City := event.Venue.City.Name,
      State := event.Venue.City.State,
      Artist := event.Artist.Name,
      Tour := "",
      SongsPlayed := 0,
      Link := event.Url)
  }

  /** One flattened event per setlist, in input order. */
  function ProjectAll(setlists: seq<SetlistObject>): (r: seq<EventObject>)
    ensures |r| == |setlists|
    ensures forall i :: 0 <= i < |r| ==> r[i] == Project(setlists[i])
  {
    if setlists == [] then []
    else ProjectAll(setlists[..|setlists| - 1]) + [Project(setlists[|setlists| - 1])]
  }

  class EventsList {
    var Event: seq<EventObject>

    constructor ()
      ensures Event == []
    {
      Event := [];
    }

    /** Appends one event and returns the list as it now is. */
    method AddEvent(event: EventObject) returns (r: seq<EventObject>)
      modifies this
      ensures Event == old(Event) + [event]
      ensures |Event| == |old(Event)| + 1 && Event[..|old(Event)|] == old(Event)
      ensures r == Event
    {
      Event := Event + [event];
      r := Event;
    }
  }

  /** What a written file holds: the flattened list, or one full record. */
  datatype FileContent = ListFile(list: seq<EventObject>) | EventFile(setlist: SetlistObject)

  class OutputDir {
    var files: map<string, FileContent>

    constructor (existing: map<string, FileContent>)
      ensures files == existing
    {
      files := existing;
    }

    /** Remove, create and write one file: the last write to a name wins. */
    method Put(name: string, content: FileContent)
      modifies this
      ensures files == old(files)[name := content]
    {
      files := files[name := content];
    }
  }

  function ListFileName(path: string): string {
    path + "list.json"
  }

  function EventFileName(path: string, event: SetlistObject): string {
    path + Dates.ReformatDate(event.EventDate) + "-" + Slug.CleanString(event.Artist.Name) + ".json"
  }

  /** One file write: a name and what the file then holds. */
  datatype Write = Write(name: string, content: FileContent)

  /** The directory after the writes, one after another. */
  function Apply(files: map<string, FileContent>, writes: seq<Write>): map<string, FileContent> {
    if writes == [] then files
    else
      var last := writes[|writes| - 1];
      Apply(files, writes[..|writes| - 1])[last.name := last.content]
  }

  /** The writes writeJsonEventFiles makes, one per setlist, in order. */
  function EventWrites(path: string, setlists: seq<SetlistObject>): (w: seq<Write>)
    ensures |w| == |setlists|
  {
    if setlists == [] then []
    else
      var last := setlists[|setlists| - 1];
      EventWrites(path, setlists[..|setlists| - 1]) + [Write(EventFileName(path, last), EventFile(last))]
  }

  /** Write i is setlist i under its derived name. */
  lemma {:induction false} EventWritesAt(path: string, setlists: seq<SetlistObject>, i: nat)
    requires i < |setlists|
    ensures EventWrites(path, setlists)[i] == Write(EventFileName(path, setlists[i]), EventFile(setlists[i]))
  {
    if i < |setlists| - 1 {
      var init := setlists[..|setlists| - 1];
      EventWritesAt(path, init, i);
      assert init[i] == setlists[i];
    }
  }

  function WriteEventFiles(files: map<string, FileContent>, path: string, setlists: seq<SetlistObject>): map<string, FileContent> {
    Apply(files, EventWrites(path, setlists))
  }

  /** The directory after one run of both writers. */
  function WriteAll(files: map<string, FileContent>, path: string, setlists: seq<SetlistObject>): map<string, FileContent> {
    WriteEventFiles(files[ListFileName(path) := ListFile(ProjectAll(setlists))], path, setlists)
  }

  method WriteJsonEventsList(events: ResponseSetlist, path: string, dir: OutputDir)
    modifies dir
    ensures dir.files == old(dir.files)[ListFileName(path) := ListFile(ProjectAll(events.Setlist))]
  {
    var el := new EventsList();
    var i := 0;
    while i < |events.Setlist|
      invariant 0 <= i <= |events.Setlist|
      invariant el.Event == ProjectAll(events.Setlist[..i])
      invariant dir.files == old(dir.files)
    {
      var event := events.Setlist[i];
      var e := Project(event);
      var _ := el.AddEvent(e);
      assert events.Setlist[..i + 1][..i] == events.Setlist[..i];
      i := i + 1;
    }
    assert events.Setlist[..i] == events.Setlist;
    dir.Put(ListFileName(path), ListFile(el.Event));
  }

  method WriteJsonEventFiles(events: ResponseSetlist, path: string, dir: OutputDir)
    modifies dir
    ensures dir.files == WriteEventFiles(old(dir.files), path, events.Setlist)
  {
    var i := 0;
    while i < |events.Setlist|
      invariant 0 <= i <= |events.Setlist|
      invariant dir.files == WriteEventFiles(old(dir.files), path, events.Setlist[..i])
    {
      var event := events.Setlist[i];
      var fileout := EventFileName(path, event);
      WriteEventFilesStep(old(dir.files), path, events.Setlist, i);
      dir.Put(fileout, EventFile(event));
      i := i + 1;
    }
    assert events.Setlist[..i] == events.Setlist;
  }

  /** One more setlist is one more write on top of the earlier ones. */
  lemma WriteEventFilesStep(files: map<string, FileContent>, path: string, setlists: seq<SetlistObject>, i: nat)
    requires i < |setlists|
    ensures WriteEventFiles(files, path, setlists[..i + 1]) ==
      WriteEventFiles(files, path, setlists[..i])[EventFileName(path, setlists[i]) := EventFile(setlists[i])]
  {
    assert setlists[..i + 1][..i] == setlists[..i];
  }

  /** What main does once the configuration is read: fetch, then write the
      list file, then the per-event files. */
  method Run(user: string, fetch: Fetcher.Request -> ResponseSetlist, path: string, dir: OutputDir)
    returns (requests: seq<Fetcher.Request>)
    requires Fetcher.FirstPage(fetch, user).ItemsPerPage != 0
    modifies dir
    ensures requests == Fetcher.Requests(user, Fetcher.Pages(fetch, user))
    ensures dir.files == WriteAll(old(dir.files), path, Fetcher.Aggregate(fetch, user).Setlist)
  {
    var events;
    events, requests := Fetcher.GetEventsAttendedByUser(user, fetch);
    WriteJsonEventsList(events, path, dir);
    WriteJsonEventFiles(events, path, dir);
  }

  /** A per-event file is named with the same date as that event's entry in
      the list, and its artist's slug. */
  lemma EventFileNameMatchesList(path: string, setlists: seq<SetlistObject>, i: nat)
    requires i < |setlists|
    ensures EventFileName(path, setlists[i]) ==
      path + ProjectAll(setlists)[i].Date + "-" + Slug.CleanString(ProjectAll(setlists)[i].Artist) + ".json"
  {
  }

  /** A per-event name is the path, ten characters of date, '-', the slug
      and ".json"; so it is never the list file's name. */
  lemma EventFileNameShape(path: string, event: SetlistObject)
    ensures var name := EventFileName(path, event);
      |name| == |path| + 16 + |Slug.CleanString(event.Artist.Name)| &&
      name[..|path|] == path && name[|name| - 5..] == ".json" &&
      Dates.IsIsoDate(name[|path|..|path| + 10]) && name[|path| + 10] == '-' &&
      name[|path| + 11..|name| - 5] == Slug.CleanString(event.Artist.Name)
    ensures EventFileName(path, event) != ListFileName(path)
  {
    var d := Dates.ReformatDate(event.EventDate);
    var slug := Slug.CleanString(event.Artist.Name);
    Dates.ReformatShape(event.EventDate);
    var name := EventFileName(path, event);
    assert name == path + d + "-" + slug + ".json";
    assert name[|path|..|path| + 10] == d;
    assert name[|path| + 11..|name| - 5] == slug;
    assert |ListFileName(path)| == |path| + 9;
  }

  /** The names in the directory afterwards: the old ones and the written ones. */
  lemma {:induction false} ApplyKeys(files: map<string, FileContent>, writes: seq<Write>)
    ensures Apply(files, writes).Keys == files.Keys + set i | 0 <= i < |writes| :: writes[i].name
  {
    if writes != [] {
      var init := writes[..|writes| - 1];
      ApplyKeys(files, init);
      var names := set i | 0 <= i < |writes| :: writes[i].name;
      var initNames := set i | 0 <= i < |init| :: init[i].name;
      assert names == initNames + {writes[|writes| - 1].name} by {
        forall n | n in names ensures n in initNames + {writes[|writes| - 1].name} {
          var i :| 0 <= i < |writes| && writes[i].name == n;
          if i < |init| {
            assert init[i] == writes[i];
          }
        }
        forall n | n in initNames ensures n in names {
          var i :| 0 <= i < |init| && init[i].name == n;
          assert init[i] == writes[i];
        }
      }
    }
  }

  /** A written name holds its last write. */
  lemma {:induction false} ApplyLastWriteWins(files: map<string, FileContent>, writes: seq<Write>, i: nat)
    requires i < |writes|
    requires forall j :: i < j < |writes| ==> writes[j].name != writes[i].name
    ensures writes[i].name in Apply(files, writes)
    ensures Apply(files, writes)[writes[i].name] == writes[i].content
  {
    if i < |writes| - 1 {
      var init := writes[..|writes| - 1];
      assert init[i] == writes[i];
      forall j | i < j < |init| ensures init[j].name != init[i].name {
        assert init[j] == writes[j];
      }
      ApplyLastWriteWins(files, init, i);
    }
  }

  /** A name nothing writes keeps what it had. */
  lemma {:induction false} ApplyElsewhere(files: map<string, FileContent>, writes: seq<Write>, name: string)
    requires forall i :: 0 <= i < |writes| ==> writes[i].name != name
    ensures name in Apply(files, writes) <==> name in files
    ensures name in files ==> Apply(files, writes)[name] == files[name]
  {
    if writes != [] {
      var init := writes[..|writes| - 1];
      forall i | 0 <= i < |init| ensures init[i].name != name {
        assert init[i] == writes[i];
      }
      ApplyElsewhere(files, init, name);
    }
  }

  /** The writes overlay what they would make of an empty directory. */
  lemma {:induction false} ApplyOverlay(files: map<string, FileContent>, writes: seq<Write>)
    ensures Apply(files, writes) == files + Apply(map[], writes)
  {
    if writes != [] {
      var init := writes[..|writes| - 1];
      var last := writes[|writes| - 1];
      ApplyOverlay(files, init);
      var w := Apply(map[], init);
      assert (files + w)[last.name := last.content] == files + w[last.name := last.content];
    }
  }

  /** With pairwise distinct names, an empty directory ends up with one file
      per write. */
  lemma {:induction false} ApplyDistinctNames(writes: seq<Write>)
    requires forall i, j :: 0 <= i < j < |writes| ==> writes[i].name != writes[j].name
    ensures |Apply(map[], writes)| == |writes|
  {
    if writes != [] {
      var init := writes[..|writes| - 1];
      var last := writes[|writes| - 1];
      forall i, j | 0 <= i < j < |init| ensures init[i].name != init[j].name {
        assert init[i] == writes[i] && init[j] == writes[j];
      }
      ApplyDistinctNames(init);
      forall i | 0 <= i < |init| ensures init[i].name != last.name {
        assert init[i] == writes[i];
      }
      ApplyElsewhere(map[], init, last.name);
      var w := Apply(map[], init);
      assert w[last.name := last.content].Keys == w.Keys + {last.name};
    }
  }

  /** The event file of setlist i holds setlist i unless a later setlist
      has the same file name. */
  lemma EventFileHoldsItsSetlist(files: map<string, FileContent>, path: string, setlists: seq<SetlistObject>, i: nat)
    requires i < |setlists|
    requires forall j :: i < j < |setlists| ==> EventFileName(path, setlists[j]) != EventFileName(path, setlists[i])
    ensures EventFileName(path, setlists[i]) in WriteEventFiles(files, path, setlists)
    ensures WriteEventFiles(files, path, setlists)[EventFileName(path, setlists[i])] == EventFile(setlists[i])
  {
    var writes := EventWrites(path, setlists);
    forall j | 0 <= j < |setlists| ensures writes[j] == Write(EventFileName(path, setlists[j]), EventFile(setlists[j])) {
      EventWritesAt(path, setlists, j);
    }
    ApplyLastWriteWins(files, writes, i);
  }

  /** The event files leave every other file alone and add exactly the
      derived names. */
  lemma EventFilesNames(files: map<string, FileContent>, path: string, setlists: seq<SetlistObject>)
    ensures WriteEventFiles(files, path, setlists).Keys ==
      files.Keys + set i | 0 <= i < |setlists| :: EventFileName(path, setlists[i])
  {
    var writes := EventWrites(path, setlists);
    ApplyKeys(files, writes);
    var written := set i | 0 <= i < |writes| :: writes[i].name;
    var derived := set i | 0 <= i < |setlists| :: EventFileName(path, setlists[i]);
    forall n | n in written ensures n in derived {
      var i :| 0 <= i < |writes| && writes[i].name == n;
      EventWritesAt(path, setlists, i);
    }
    forall n | n in derived ensures n in written {
      var i :| 0 <= i < |setlists| && EventFileName(path, setlists[i]) == n;
      EventWritesAt(path, setlists, i);
      assert writes[i].name == n;
    }
    assert written == derived;
  }

  /** With pairwise distinct file names there are as many event files
      written as setlists. */
  lemma EventFilesOnePerSetlist(path: string, setlists: seq<SetlistObject>)
    requires forall i, j :: 0 <= i < j < |setlists| ==> EventFileName(path, setlists[i]) != EventFileName(path, setlists[j])
    ensures |WriteEventFiles(map[], path, setlists)| == |setlists|
  {
    var writes := EventWrites(path, setlists);
    forall j | 0 <= j < |setlists| ensures writes[j].name == EventFileName(path, setlists[j]) {
      EventWritesAt(path, setlists, j);
    }
    ApplyDistinctNames(writes);
  }

  /** Running both writers a second time over the same setlists leaves the
      directory as the first run left it. */
  lemma WriteAllIdempotent(files: map<string, FileContent>, path: string, setlists: seq<SetlistObject>)
    ensures WriteAll(WriteAll(files, path, setlists), path, setlists) == WriteAll(files, path, setlists)
  {
    var writes := EventWrites(path, setlists);
    forall i | 0 <= i < |writes| ensures writes[i].name != ListFileName(path) {
      EventWritesAt(path, setlists, i);
      EventFileNameShape(path, setlists[i]);
    }
    PutThenApplyIdempotent(files, ListFileName(path), ListFile(ProjectAll(setlists)), writes);
  }

  /** One write followed by writes to other names: doing it all again
      changes nothing. */
  lemma PutThenApplyIdempotent(files: map<string, FileContent>, name: string, content: FileContent, writes: seq<Write>)
    requires forall i :: 0 <= i < |writes| ==> writes[i].name != name
    ensures var afterOnce := Apply(files[name := content], writes);
      Apply(afterOnce[name := content], writes) == afterOnce
  {
    var once := files[name := content];
    var w := Apply(map[], writes);
    ApplyOverlay(once, writes);
    ApplyElsewhere(map[], writes, name);
    OverlayAbsorbs(once, w, name, content);
    ApplyOverlay(once + w, writes);
  }

  /** Map facts behind the idempotence: rewriting a name the overlay does
      not touch, or overlaying the same writes again, changes nothing. */
  lemma OverlayAbsorbs(once: map<string, FileContent>, w: map<string, FileContent>, name: string, content: FileContent)
    requires name in once && once[name] == content && name !in w
    ensures (once + w)[name := content] == once + w
    ensures (once + w) + w == once + w
  {
  }
}
