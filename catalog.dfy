/** The stories catalog: the `stories/` directory holding one `<id>.json` file
    per story plus `manifest.json`, and the `.tmp/<generationId>` working
    directories of generations in flight. Ingestion copies a finished
    generation's `story.json` into the catalog and prepends its summary to the
    manifest; the command-line tool (packages/cli/index.js) checks the id
    first, the server (server/index.js) does not. */
module Catalog {
  import opened Wrappers
  import opened StoryModel

  /** `manifest.json` as found on disk: absent, present but not a JSON object
      with a `stories` array, or holding a list of summaries. */
  datatype ManifestFile = Missing | Unreadable | Stored(stories: seq<Summary>)

  /** What `JSON.parse` makes of a generation's `story.json`. */
  datatype Artifact = Malformed | Parsed(story: Story)

  /** Why an ingestion did not complete. */
  datatype Failure = NotCreated | UnparsableStory | InvalidStoryId | UnparsableManifest

  /** The list the ingestion starts from: a missing manifest counts as empty. */
  function Listed(m: ManifestFile): seq<Summary>
  {
    if m.Stored? then m.stories else []
  }

  class StoriesDir {
    /** The `<id>.json` files, by id. */
    var stories: map<string, Story>
    var manifest: ManifestFile
    /** The generation ids that have a working directory under `.tmp/`. */
    var generations: set<string>

    /** Every manifest entry names a story file that exists. */
    predicate Consistent()
      reads this
    {
      forall i | 0 <= i < |Listed(manifest)| :: Listed(manifest)[i].id in stories
    }

    /** Every story file is named by an id of the 8-4-4-4-12 form. */
    predicate WellNamed()
      reads this
    {
      forall id | id in stories :: IsUuid(id)
    }

    constructor ()
      ensures stories == map[] && manifest == Missing && generations == {}
      ensures Consistent() && WellNamed()
    {
      stories := map[];
      manifest := Missing;
      generations := {};
    }

    /** The steps both ingestions share once they hold a parsed story: write
        `<id>.json`, read the manifest (a missing one counts as empty), prepend
        the summary, write the manifest back and remove the working directory.
        The story file is written before the manifest is read, so an
        unreadable manifest fails the ingestion with the story file already in
        place and the working directory kept. */
    method Commit(genId: string, story: Story) returns (r: Result<Story, Failure>)
      modifies this
      ensures stories == old(stories)[story.id := story]
      ensures old(manifest).Unreadable? ==>
        r == Err(UnparsableManifest) && manifest == old(manifest) && generations == old(generations)
      ensures !old(manifest).Unreadable? ==>
        && r == Ok(story)
        && manifest == Stored([SummaryOf(story)] + Listed(old(manifest)))
        && generations == old(generations) - {genId}
      ensures old(Consistent()) ==> Consistent()
    {
      stories := stories[story.id := story];
      var list: seq<Summary>;
      match manifest {
        case Unreadable =>
          return Err(UnparsableManifest);
        case Missing =>
          list := [];
        case Stored(l) =>
          list := l;
      }
      list := [SummaryOf(story)] + list;
      manifest := Stored(list);
      generations := generations - {genId};
      r := Ok(story);
    }

    /** The command-line tool's `close` handler. `artifact` is `None` when the
        agent left no `story.json`; then the generation is rejected and its
        working directory is kept for inspection. An id that is empty or not
        of the 8-4-4-4-12 form is rejected before anything is written. */
    method IngestCli(genId: string, artifact: Option<Artifact>) returns (r: Result<Story, Failure>)
      modifies this
      ensures artifact == None ==> r == Err(NotCreated) && unchanged(this)
      ensures artifact == Some(Malformed) ==> r == Err(UnparsableStory) && unchanged(this)
      ensures artifact.Some? && artifact.value.Parsed? && !IsUuid(artifact.value.story.id) ==>
        r == Err(InvalidStoryId) && unchanged(this)
      ensures artifact.Some? && artifact.value.Parsed? && IsUuid(artifact.value.story.id) ==>
        var story := artifact.value.story;
        && stories == old(stories)[story.id := story]
        && (old(manifest).Unreadable? ==>
              r == Err(UnparsableManifest) && manifest == old(manifest) && generations == old(generations))
        && (!old(manifest).Unreadable? ==>
              && r == Ok(story)
              && manifest == Stored([SummaryOf(story)] + Listed(old(manifest)))
              && generations == old(generations) - {genId})
      ensures r.Ok? ==> r == Ok(artifact.value.story) && IsUuid(r.value.id)
      ensures old(Consistent()) ==> Consistent()
      ensures old(WellNamed()) ==> WellNamed()
    {
      if artifact.None? {
        return Err(NotCreated);
      }
      match artifact.value {
        case Malformed =>
          r := Err(UnparsableStory);
        case Parsed(story) =>
          if story.id == "" || !IsUuid(story.id) {
            return Err(InvalidStoryId);
          }
          r := Commit(genId, story);
      }
    }

    /** The server's `close` handler: the same copy and manifest prepend with
        no id check. The failure it returns is only logged by the server and
        never reaches a client. */
    method IngestServer(genId: string, artifact: Option<Artifact>) returns (logged: Option<Failure>)
      modifies this
      ensures artifact == None ==> logged == Some(NotCreated) && unchanged(this)
      ensures artifact == Some(Malformed) ==> logged == Some(UnparsableStory) && unchanged(this)
      ensures artifact.Some? && artifact.value.Parsed? ==>
        var story := artifact.value.story;
        && stories == old(stories)[story.id := story]
        && (old(manifest).Unreadable? ==>
              logged == Some(UnparsableManifest) && manifest == old(manifest) && generations == old(generations))
        && (!old(manifest).Unreadable? ==>
              && logged == None
              && manifest == Stored([SummaryOf(story)] + Listed(old(manifest)))
              && generations == old(generations) - {genId})
      ensures old(Consistent()) ==> Consistent()
    {
      if artifact.None? {
        return Some(NotCreated);
      }
      match artifact.value {
        case Malformed =>
          logged := Some(UnparsableStory);
        case Parsed(story) =>
          var r := Commit(genId, story);
          logged := if r.Err? then Some(r.error) else None;
      }
    }

    /** `POST /api/generate`: a missing or empty query is answered with 400
        and nothing is created; otherwise the generation's working directory
        is created and its id returned. */
    method StartGeneration(query: Option<string>, genId: string) returns (r: Result<string, int>)
      modifies this
      ensures (query.None? || query.value == "") ==> r == Err(400) && unchanged(this)
      ensures query.Some? && query.value != "" ==>
        && r == Ok(genId)
        && generations == old(generations) + {genId}
        && stories == old(stories) && manifest == old(manifest)
      ensures query.Some? && query.value != "" && genId !in old(generations) ==>
        |generations| == |old(generations)| + 1
    {
      if query.None? || query.value == "" {
        return Err(400);
      }
      generations := generations + {genId};
      r := Ok(genId);
    }
  }

  /** Two successful ingestions in a row leave the later story first in the
      manifest, then the earlier one, then the entries that were already
      there: the manifest is newest-first. */
  method IngestTwice(dir: StoriesDir, g1: string, s1: Story, g2: string, s2: Story)
    modifies dir
    requires IsUuid(s1.id) && IsUuid(s2.id) && !dir.manifest.Unreadable?
    ensures dir.manifest == Stored([SummaryOf(s2), SummaryOf(s1)] + Listed(old(dir.manifest)))
    ensures s2.id in dir.stories && dir.stories[s2.id] == s2
    ensures s1.id != s2.id ==> s1.id in dir.stories && dir.stories[s1.id] == s1
  {
    var r1 := dir.IngestCli(g1, Some(Parsed(s1)));
    var r2 := dir.IngestCli(g2, Some(Parsed(s2)));
    assert [SummaryOf(s2)] + ([SummaryOf(s1)] + Listed(old(dir.manifest)))
        == [SummaryOf(s2), SummaryOf(s1)] + Listed(old(dir.manifest));
  }
}
