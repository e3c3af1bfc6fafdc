/** The viewer's top-level state machine (packages/viewer/src/components/App.tsx):
    home, loading, reading and error, with the story, the URL being read, the
    error message, the recent list and the page address it keeps. */
module App {
  import opened Wrappers
  import opened StoryModel
  import ViewerApi

  datatype AppState = Home | Loading | Reading | Failed

  /** How a fetch settles: the parsed story, or a thrown value, with its
      message when it is an `Error`. */
  datatype Fetched = Loaded(story: Story) | Threw(message: Option<string>)

  /** What the page shows. */
  datatype Screen =
    | LandingScreen(recent: seq<ViewerApi.RecentStory>)
    | LoadingScreen
    | ErrorScreen(message: Option<string>)
    | ViewerScreen(story: Story)
    | Blank

  const FallbackMessage := "Failed to load story"

  class AppModel {
    var state: AppState
    var story: Option<Story>
    var url: Option<string>
    var error: Option<string>
    var recent: seq<ViewerApi.RecentStory>
    /** The query string of the page address. */
    var query: ViewerApi.Params
    /** The browser's local storage of the recent list. */
    const store: ViewerApi.RecentStore

    /** What every handler keeps: a reader has a story, a failure has a
        message, home holds nothing, and a load in flight has no error. */
    predicate Valid()
      reads this
    {
      && (state == Reading ==> story.Some?)
      && (state == Failed ==> error.Some?)
      && (state == Home ==> story.None? && url.None? && error.None?)
      && (state == Loading ==> error.None? && url.Some?)
    }

    /** The first render, at the address whose query string is `query`. */
    constructor (store: ViewerApi.RecentStore, query: ViewerApi.Params)
      ensures this.store == store && this.query == query
      ensures state == Home && story.None? && url.None? && error.None? && recent == []
      ensures Valid()
    {
      this.store := store;
      this.query := query;
      state := Home;
      story := None;
      url := None;
      error := None;
      recent := [];
    }

    /** The page on screen. */
    function Screen(): (s: Screen)
      reads this
      ensures s.ViewerScreen? <==> state == Reading && story.Some?
      ensures s.ViewerScreen? ==> s.story == story.value
      ensures s.LandingScreen? <==> state == Home
      ensures s.ErrorScreen? ==> s.message == error
    {
      match state
      case Home => LandingScreen(recent)
      case Loading => LoadingScreen
      case Failed => ErrorScreen(error)
      case Reading => if story.Some? then ViewerScreen(story.value) else Blank
    }

    /** The synchronous half of `loadStory`. */
    method StartLoad(target: string)
      requires Valid()
      modifies this
      ensures state == Loading && error.None? && url == Some(target)
      ensures story == old(story) && recent == old(recent) && query == old(query)
      ensures Valid()
    {
      state := Loading;
      error := None;
      url := Some(target);
    }

    /** The half of `loadStory(target)` that runs once the fetch settles. */
    method FinishLoad(target: string, fetched: Fetched, now: string)
      requires Valid()
      modifies this, store
      ensures fetched.Loaded? ==>
        && state == Reading && story == Some(fetched.story)
        && store.item == ViewerApi.Saved(ViewerApi.Added(old(store.Recent()), target, fetched.story.title, now))
        && recent == store.Recent()
        && query == old(query)["url" := target]
        && error == old(error) && url == old(url)
      ensures fetched.Threw? ==>
        && state == Failed
        && error == Some(if fetched.message.Some? then fetched.message.value else FallbackMessage)
        && story == old(story) && url == old(url) && recent == old(recent) && query == old(query)
        && store.item == old(store.item)
      ensures Valid()
    {
      match fetched
      case Loaded(s) =>
        story := Some(s);
        state := Reading;
        store.Add(target, s.title, now);
        recent := store.Recent();
        query := query["url" := target];
      case Threw(message) =>
        error := Some(if message.Some? then message.value else FallbackMessage);
        state := Failed;
    }

    /** `loadStory(target)` when nothing else happens while it is fetching. */
    method LoadStory(target: string, fetched: Fetched, now: string)
      requires Valid()
      modifies this, store
      ensures fetched.Loaded? ==>
        && state == Reading && story == Some(fetched.story) && url == Some(target) && error.None?
        && store.item == ViewerApi.Saved(ViewerApi.Added(old(store.Recent()), target, fetched.story.title, now))
        && recent == store.Recent()
        && query == old(query)["url" := target]
      ensures fetched.Threw? ==>
        && state == Failed && url == Some(target)
        && error == Some(if fetched.message.Some? then fetched.message.value else FallbackMessage)
        && story == old(story) && recent == old(recent) && store.item == old(store.item)
      ensures Valid()
    {
      StartLoad(target);
      FinishLoad(target, fetched, now);
    }

    /** `handleBack`. */
    method Back()
      modifies this
      ensures state == Home && story.None? && url.None? && error.None?
      ensures query == map[] && recent == old(recent)
      ensures Valid()
    {
      story := None;
      url := None;
      error := None;
      state := Home;
      query := map[];
    }

    /** `handleRetry`: a load of the current URL, or nothing without one.
        Returns the URL it started loading. */
    method Retry() returns (started: Option<string>)
      requires Valid()
      modifies this
      ensures old(url).Some? && old(url).value != "" ==>
        started == old(url) && state == Loading && url == old(url) && error.None?
      ensures !(old(url).Some? && old(url).value != "") ==>
        started.None? && state == old(state) && url == old(url) && error == old(error)
      ensures story == old(story) && recent == old(recent) && query == old(query)
      ensures Valid()
    {
      if url.Some? && url.value != "" {
        started := url;
        StartLoad(url.value);
      } else {
        started := None;
      }
    }

    /** The two mount effects: the recent list is read from storage, and the
        story the page parameters name, if any, starts loading. Returns that
        story's URL. */
    method Mount() returns (started: Option<string>)
      requires Valid() && state == Home
      modifies this
      ensures recent == store.Recent()
      ensures started == ViewerApi.StoryUrl(old(query))
      ensures started.Some? ==> state == Loading && url == started
      ensures started.None? ==> state == Home
      ensures story == old(story) && query == old(query)
      ensures Valid()
    {
      recent := store.Recent();
      started := ViewerApi.StoryUrl(query);
      if started.Some? {
        StartLoad(started.value);
      }
    }
  }

  /** A story read successfully leaves an address that reopens it: the
      `url` parameter set on success is the one the page resolves first. */
  lemma ReloadReopens(query: ViewerApi.Params, target: string)
    requires target != ""
    ensures ViewerApi.StoryUrl(query["url" := target]) == Some(target)
  {
  }

  /** After going back, the address names no story. */
  lemma BackAddressEmpty()
    ensures ViewerApi.StoryUrl(map[]).None?
  {
  }
}
