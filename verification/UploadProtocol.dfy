/** The upload protocol as a whole: several tabs over one store, requests that arrive late or
    more than once, answers that are lost, tabs that close between two steps, and a person
    who can switch farm in the middle. */
module UploadProtocol {
  import opened Text
  import opened PriceRules
  import opened UploadQueue

  /** Where a tab is in its upload loop; each value is a point where it awaits something. */
  datatype Stage =
    | Looping
    | Awaiting(row: Row, under: Id, replayed: bool) // the request has left, with a token for that farm
    | Deleting(row: Row)                            // answered well, the row not yet deleted
    | Flagging(row: Row, why: string)               // refused, the row not yet flagged

  /** A running upload: the rows of the snapshot still to go. */
  datatype Upload = Upload(farm: Id, rest: seq<Row>, stage: Stage)

  /** `flushing.current` of the tab is the upload; `session` is the farm its token is for. */
  datatype Tab = Tab(session: Id, upload: Option<Upload>)

  /** A request on its way. The farm it is for is the one of the token it carries. */
  datatype Post = Post(farm: Id, input: Weighing)

  datatype Key = Key(farm: Id, id: Id)

  function KeyOf(p: Post): (k: Key) { Key(p.farm, p.input.id) }

  datatype World = World(
    rows: Store,
    tabs: map<Id, Tab>,
    network: set<Post>,
    server: map<Key, Weighing>, // the records, by farm and id
    taken: Store,              // every weighing ever typed, as it was typed
    removed: set<Id>)          // weighings a person removed

  datatype Event =
    | Type(tab: Id, row: Row)
    | Remove(id: Id)
    | Start(tab: Id, list: seq<Row>)
    | Skip(tab: Id)
    | Send(tab: Id)
    | Resend(tab: Id)
    | Arrive(post: Post, accepted: bool)
    | Answered(tab: Id)
    | Declined(tab: Id, why: string)
    | GiveUp(tab: Id)
    | Delete(tab: Id)
    | Flag(tab: Id)
    | Finish(tab: Id)
    | Close(tab: Id)
    | Switch(tab: Id, farm: Id)

  predicate Running(w: World, tab: Id) { tab in w.tabs && w.tabs[tab].upload.Some? }

  function UploadOf(w: World, tab: Id): (u: Upload)
    requires Running(w, tab)
  {
    w.tabs[tab].upload.value
  }

  predicate OnServer(w: World, p: Post) { KeyOf(p) in w.server && w.server[KeyOf(p)] == p.input }

  predicate Head(w: World, tab: Id) {
    Running(w, tab) && UploadOf(w, tab).stage.Looping? && UploadOf(w, tab).rest != []
  }

  /** A tab that was never seen has just been opened: any farm, no upload. A request answered
      401 is sent once more by the client, with whatever session the tab holds by then. */
  ghost predicate Enabled(w: World, e: Event) {
    match e
    case Type(tab, row) =>
      tab in w.tabs && row.farm == w.tabs[tab].session && row.error.None?
      && row.id == row.input.id && row.id !in w.taken
    case Remove(id) => id in w.rows
    case Start(tab, list) => tab in w.tabs && w.tabs[tab].upload.None? && IsListing(w.rows, w.tabs[tab].session, list)
    case Skip(tab) => Head(w, tab) && UploadOf(w, tab).rest[0].error.Some?
    case Send(tab) => Head(w, tab) && UploadOf(w, tab).rest[0].error.None?
    case Resend(tab) => Running(w, tab) && UploadOf(w, tab).stage.Awaiting? && !UploadOf(w, tab).stage.replayed
    case Arrive(post, _) => post in w.network
    case Answered(tab) => Running(w, tab) && UploadOf(w, tab).stage.Awaiting?
                          && Key(UploadOf(w, tab).stage.under, UploadOf(w, tab).stage.row.id) in w.server
    case Declined(tab, _) => Running(w, tab) && UploadOf(w, tab).stage.Awaiting?
    case GiveUp(tab) => Running(w, tab)
    case Delete(tab) => Running(w, tab) && UploadOf(w, tab).stage.Deleting?
    case Flag(tab) => Running(w, tab) && UploadOf(w, tab).stage.Flagging?
    case Finish(tab) => Running(w, tab) && UploadOf(w, tab).stage.Looping? && UploadOf(w, tab).rest == []
    case Close(tab) => true
    case Switch(tab, farm) => true
  }

  function At(w: World, tab: Id, u: Option<Upload>): (v: World)
    requires tab in w.tabs
  {
    w.(tabs := w.tabs[tab := w.tabs[tab].(upload := u)])
  }

  function Next(w: World, e: Event): (v: World)
    requires Enabled(w, e)
  {
    match e
    case Type(_, row) => w.(rows := w.rows[row.id := row], taken := w.taken[row.id := row])
    case Remove(id) => w.(rows := w.rows - {id}, removed := w.removed + {id})
    case Start(tab, list) => At(w, tab, Some(Upload(w.tabs[tab].session, list, Looping)))
    case Skip(tab) => var u := UploadOf(w, tab); At(w, tab, Some(u.(rest := u.rest[1..])))
    case Send(tab) =>
      var u := UploadOf(w, tab);
      At(w, tab, Some(u.(rest := u.rest[1..], stage := Awaiting(u.rest[0], w.tabs[tab].session, false))))
        .(network := w.network + {Post(w.tabs[tab].session, u.rest[0].input)})
    case Resend(tab) =>
      var u := UploadOf(w, tab);
      At(w, tab, Some(u.(stage := Awaiting(u.stage.row, w.tabs[tab].session, true))))
        .(network := w.network + {Post(w.tabs[tab].session, u.stage.row.input)})
    case Arrive(post, accepted) =>
      // A repeated id is answered with the record already there.
      if accepted && KeyOf(post) !in w.server then w.(server := w.server[KeyOf(post) := post.input]) else w
    case Answered(tab) => var u := UploadOf(w, tab); At(w, tab, Some(u.(stage := Deleting(u.stage.row))))
    case Declined(tab, why) => var u := UploadOf(w, tab); At(w, tab, Some(u.(stage := Flagging(u.stage.row, why))))
    case GiveUp(tab) => At(w, tab, None)
    case Delete(tab) =>
      var u := UploadOf(w, tab);
      At(w, tab, Some(u.(stage := Looping))).(rows := w.rows - {u.stage.row.id})
    case Flag(tab) =>
      var u := UploadOf(w, tab);
      At(w, tab, Some(u.(stage := Looping)))
        .(rows := w.rows[u.stage.row.id := u.stage.row.(error := Some(u.stage.why))])
    case Finish(tab) => At(w, tab, None)
    case Close(tab) => w.(tabs := w.tabs - {tab})
    case Switch(tab, farm) => w.(tabs := w.tabs[tab := Tab(farm, if tab in w.tabs then w.tabs[tab].upload else None)])
  }

  ghost predicate EnabledRun(w: World, es: seq<Event>)
    decreases |es|
  {
    es != [] ==> Enabled(w, es[0]) && EnabledRun(Next(w, es[0]), es[1..])
  }

  ghost function Run(w: World, es: seq<Event>): (v: World)
    requires EnabledRun(w, es)
    decreases |es|
  {
    if es == [] then w else Run(Next(w, es[0]), es[1..])
  }

  const START := World(map[], map[], {}, map[], map[], {})
}
