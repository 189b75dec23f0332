/**
 * The per-guild music player state (`GuildPlayer` in bot.py) and the pure
 * transitions the button handlers and the playback loop apply to it.
 *
 * Only the fields the transitions read or write are modelled: the queue of
 * page URLs, the history of started tracks, the loop mode and the URL of the
 * current track. The guild handle, the panel message, the resolved track
 * metadata and the two timestamps belong to Discord I/O and wall-clock time.
 */
module GuildPlayer {
  import opened Wrappers
  import opened Sequences

  /** A track reference: the page URL the queue and history hold. */
  type Url = string

  /** 0: off, 1: repeat the current track, 2: repeat the whole queue. */
  type LoopMode = m: int | 0 <= m < 3

  const LoopOff: LoopMode := 0
  const LoopTrack: LoopMode := 1
  const LoopQueue: LoopMode := 2

  datatype Player = Player(
    queue: seq<Url>,
    history: seq<Url>,
    loopMode: LoopMode,
    current: Option<Url>)

  /** The state `GuildPlayer.__init__` builds. */
  function NewPlayer(): Player {
    Player([], [], LoopOff, None)
  }

  /**
   * Python truthiness of `current_track_url`: `None` and the empty string
   * both read as "no current track".
   */
  predicate HasCurrent(p: Player) {
    p.current.Some? && p.current.value != ""
  }

  /** The invariant the history keeps: no URL is recorded twice. */
  predicate Valid(p: Player) {
    Distinct(p.history)
  }

  // ---------------------------------------------------------------------
  // Loop button
  // ---------------------------------------------------------------------

  /** Outcome of a loop-button press: the new state and the status word shown. */
  datatype LoopPress = LoopPress(player: Player, status: string)

  /** The loop button advances the mode Off -> Track -> Queue -> Off. */
  function CycleLoop(p: Player): (r: LoopPress)
    ensures r.player.loopMode != p.loopMode
    ensures p.loopMode == LoopOff ==> r.player.loopMode == LoopTrack
    ensures p.loopMode == LoopTrack ==> r.player.loopMode == LoopQueue
    ensures p.loopMode == LoopQueue <==> r.player.loopMode == LoopOff
    ensures r.player == p.(loopMode := r.player.loopMode)
    ensures r.status == (if r.player.loopMode == LoopOff then "Off"
                         else if r.player.loopMode == LoopTrack then "Track" else "Queue")
  {
    var m: LoopMode := (p.loopMode + 1) % 3;
    LoopPress(p.(loopMode := m), if m == 0 then "Off" else if m == 1 then "Track" else "Queue")
  }

  /** Three presses of the loop button give back the original state. */
  lemma LoopPeriodThree(p: Player)
    ensures CycleLoop(CycleLoop(CycleLoop(p).player).player).player == p
  {
  }

  // ---------------------------------------------------------------------
  // Advancing after a track ends
  // ---------------------------------------------------------------------

  /**
   * What `play_next` does: either it pops a track and hands it to
   * `play_track`, or the queue is exhausted and the player goes idle.
   */
  datatype Advance = Load(track: Url, player: Player) | QueueFinished(player: Player)

  /**
   * `play_next`: the finished track is put back at the head (loop track) or
   * at the tail (loop queue), then the head is popped; an empty queue clears
   * the current track. On the non-empty path the current track is NOT
   * cleared: only a successful `play_track` overwrites it.
   */
  function PlayNext(p: Player): (a: Advance)
    ensures a.player.history == p.history && a.player.loopMode == p.loopMode
    ensures a.QueueFinished? <==> |p.queue| == 0 && (p.loopMode == LoopOff || !HasCurrent(p))
    ensures a.QueueFinished? ==> a.player == p.(current := None)
    ensures a.Load? ==> a.player.current == p.current
    ensures HasCurrent(p) && p.loopMode == LoopTrack ==> a == Load(p.current.value, p)
    ensures HasCurrent(p) && p.loopMode == LoopQueue ==>
              a.Load? && [a.track] + a.player.queue == p.queue + [p.current.value]
    ensures (p.loopMode == LoopOff || !HasCurrent(p)) && |p.queue| > 0 ==>
              a == Load(p.queue[0], p.(queue := p.queue[1..]))
  {
    var q :=
      if HasCurrent(p) && p.loopMode == LoopTrack then [p.current.value] + p.queue
      else if HasCurrent(p) && p.loopMode == LoopQueue then p.queue + [p.current.value]
      else p.queue;
    if |q| > 0 then
      assert HasCurrent(p) && p.loopMode == LoopTrack ==> q[1..] == p.queue;
      Load(q[0], p.(queue := q[1..]))
    else
      QueueFinished(p.(current := None))
  }

  /**
   * Advancing never loses or invents a track: the popped track plus the new
   * queue hold exactly the old queue plus the finished track when a loop
   * mode re-inserted it.
   */
  lemma PlayNextKeepsTracks(p: Player)
    requires PlayNext(p).Load?
    ensures var a := PlayNext(p);
            multiset{a.track} + multiset(a.player.queue) ==
            multiset(p.queue) + (if HasCurrent(p) && p.loopMode != LoopOff
                                 then multiset{p.current.value} else multiset{})
  {
    var a := PlayNext(p);
    if HasCurrent(p) && p.loopMode == LoopQueue {
      assert [a.track] + a.player.queue == p.queue + [p.current.value];
      calc {
        multiset{a.track} + multiset(a.player.queue);
        multiset([a.track] + a.player.queue);
        multiset(p.queue + [p.current.value]);
      }
    } else if !HasCurrent(p) || p.loopMode == LoopOff {
      assert p.queue == [p.queue[0]] + p.queue[1..];
    }
  }

  // ---------------------------------------------------------------------
  // Recording a started track
  // ---------------------------------------------------------------------

  /**
   * The successful tail of `play_track`: the resolved page URL becomes the
   * current track and is appended to the history only if it is absent.
   */
  function StartTrack(p: Player, url: Url): (r: Player)
    ensures r.current == Some(url) && r.queue == p.queue && r.loopMode == p.loopMode
    ensures url in r.history
    ensures |p.history| <= |r.history| <= |p.history| + 1
    ensures r.history[..|p.history|] == p.history
    ensures url in p.history ==> r.history == p.history
    ensures url !in p.history ==> r.history == p.history + [url]
    ensures Valid(p) ==> Valid(r)
  {
    Player(p.queue, if url in p.history then p.history else p.history + [url], p.loopMode, Some(url))
  }

  /** Starting the same track twice records it once. */
  lemma StartTrackIdempotent(p: Player, url: Url)
    ensures StartTrack(StartTrack(p, url), url) == StartTrack(p, url)
  {
  }

  /** The history, read as a set, gains exactly the started URL. */
  lemma StartTrackHistorySet(p: Player, url: Url)
    ensures (set u | u in StartTrack(p, url).history) == (set u | u in p.history) + {url}
  {
  }

  // ---------------------------------------------------------------------
  // Previous button
  // ---------------------------------------------------------------------

  datatype PreviousPress = PlayingPrevious(player: Player) | NoPreviousTrack(player: Player)

  /**
   * The previous button: with at least two history entries, the current
   * track (if any) and then the second-to-last history entry are pushed
   * onto the queue head, and the last two history entries are popped. The
   * last entry is popped as if it were the current track, which the
   * de-duplicated history does not guarantee.
   */
  function Previous(p: Player): (r: PreviousPress)
    ensures r.NoPreviousTrack? <==> |p.history| <= 1
    ensures r.NoPreviousTrack? ==> r.player == p
    ensures r.PlayingPrevious? ==>
              && r.player.loopMode == p.loopMode && r.player.current == p.current
              && r.player.history + p.history[|p.history| - 2..] == p.history
              && |r.player.queue| == |p.queue| + (if HasCurrent(p) then 2 else 1)
              && r.player.queue[0] == p.history[|p.history| - 2]
              && r.player.queue[1..] == (if HasCurrent(p) then [p.current.value] else []) + p.queue
    ensures Valid(p) ==> Valid(r.player)
  {
    if |p.history| > 1 then
      var h := p.history;
      var q := if HasCurrent(p) then [p.current.value] + p.queue else p.queue;
      assert h[..|h| - 2] + h[|h| - 2..] == h;
      PlayingPrevious(p.(queue := [h[|h| - 2]] + q, history := h[..|h| - 2]))
    else
      NoPreviousTrack(p)
  }

  /**
   * With loop mode off, pressing previous and letting the stopped track
   * advance loads the second-to-last history entry, and the track that was
   * playing is next in line.
   */
  lemma PreviousThenAdvanceLoadsPrior(p: Player)
    requires |p.history| >= 2 && p.loopMode == LoopOff
    ensures var a := PlayNext(Previous(p).player);
            && a.Load?
            && a.track == p.history[|p.history| - 2]
            && a.player.queue == (if HasCurrent(p) then [p.current.value] else []) + p.queue
  {
  }

  /**
   * With loop mode track, the advance that follows a previous press puts the
   * current track back at the head, so the current track is replayed and
   * the prior track is only second in line.
   */
  lemma PreviousUnderLoopTrackReplaysCurrent(p: Player)
    requires |p.history| >= 2 && p.loopMode == LoopTrack && HasCurrent(p)
    ensures var a := PlayNext(Previous(p).player);
            && a == Load(p.current.value, Previous(p).player)
            && a.player.queue[0] == p.history[|p.history| - 2]
  {
  }

  /**
   * Because the history is de-duplicated, replaying an earlier track leaves
   * the history's last entry pointing at another one; previous then pops
   * that entry and queues the track that is already playing.
   */
  lemma PreviousAfterReplayQueuesCurrentTwice()
    ensures var p := StartTrack(Player([], ["a", "b"], LoopOff, Some("b")), "a");
            && p.history == ["a", "b"]
            && Previous(p) == PlayingPrevious(Player(["a", "a"], [], LoopOff, Some("a")))
  {
    ReplayKeepsHistory();
    PreviousOfReplayed();
  }

  /** Replaying "a" after "b" records nothing new. */
  lemma ReplayKeepsHistory()
    ensures StartTrack(Player([], ["a", "b"], LoopOff, Some("b")), "a")
            == Player([], ["a", "b"], LoopOff, Some("a"))
  {
    assert ["a", "b"][0] == "a";
  }

  /** Previous on the replayed state queues "a" twice and empties the history. */
  lemma PreviousOfReplayed()
    ensures Previous(Player([], ["a", "b"], LoopOff, Some("a")))
            == PlayingPrevious(Player(["a", "a"], [], LoopOff, Some("a")))
  {
    var h := ["a", "b"];
    assert h[..0] == [] && h[0] == "a";
  }

  // ---------------------------------------------------------------------
  // Stop button and the play command
  // ---------------------------------------------------------------------

  /** The stop button clears the queue before the player is dropped. */
  function Stop(p: Player): (r: Player)
    ensures r.queue == [] && r.history == p.history
    ensures r.loopMode == p.loopMode && r.current == p.current
  {
    p.(queue := [])
  }

  /** The play command appends the chosen page URL to the queue tail. */
  function Enqueue(p: Player, url: Url): (r: Player)
    ensures |r.queue| == |p.queue| + 1 && r.queue[..|p.queue|] == p.queue && r.queue[|p.queue|] == url
    ensures r.history == p.history && r.loopMode == p.loopMode && r.current == p.current
  {
    p.(queue := p.queue + [url])
  }

  /**
   * The queue is first in, first out: with loop mode off, the next advance
   * serves the track that was already waiting, and the new one waits
   * behind the rest.
   */
  lemma EnqueueServedAfterQueue(p: Player, url: Url)
    requires p.loopMode == LoopOff && |p.queue| > 0
    ensures PlayNext(Enqueue(p, url)) == Load(p.queue[0], p.(queue := p.queue[1..] + [url]))
  {
    assert (p.queue + [url])[1..] == p.queue[1..] + [url];
  }

  datatype Request = Queued(player: Player) | Started(advance: Advance)

  /**
   * The play command appends the chosen URL, then sends the "Added ... to
   * the queue" confirmation, then runs `play_next` only when the voice
   * client is absent or not playing (a paused client counts as not
   * playing). `announced` is false when building the confirmation raises
   * (a `view_count` or `duration` field that holds `None`): the handler's
   * catch-all then reports the error and `play_next` is never reached, so
   * the URL stays queued. When playback starts, no track is lost: the
   * loaded track and the remaining queue are the old queue, the new URL
   * and, under a loop mode, the re-inserted current track.
   */
  function PlayRequest(p: Player, url: Url, announced: bool, voicePlaying: bool): (r: Request)
    ensures (voicePlaying || !announced) ==> r == Queued(Enqueue(p, url))
    ensures r.Started? <==> announced && !voicePlaying
    ensures r.Started? ==> r.advance.Load?
    ensures r.Started? ==> r.advance.player.history == p.history
                           && r.advance.player.loopMode == p.loopMode
    ensures r.Started? ==>
              r.advance.track == (if p.loopMode == LoopTrack && HasCurrent(p)
                                  then p.current.value else (p.queue + [url])[0])
    ensures r.Started? ==> r.advance.player.current == p.current
    ensures r.Started? ==>
              r.advance.player.queue ==
                (if p.loopMode == LoopTrack && HasCurrent(p) then p.queue + [url]
                 else if p.loopMode == LoopQueue && HasCurrent(p) then (p.queue + [url])[1..] + [p.current.value]
                 else (p.queue + [url])[1..])
    ensures r.Started? ==>
              multiset{r.advance.track} + multiset(r.advance.player.queue) ==
              multiset(p.queue + [url]) + (if HasCurrent(p) && p.loopMode != LoopOff
                                           then multiset{p.current.value} else multiset{})
  {
    if voicePlaying || !announced then Queued(Enqueue(p, url))
    else
      var q := Enqueue(p, url);
      PlayNextKeepsTracks(q);
      assert p.loopMode == LoopQueue && HasCurrent(p) ==>
               (q.queue + [p.current.value])[1..] == (p.queue + [url])[1..] + [p.current.value];
      Started(PlayNext(q))
  }

  /** A request to an idle player loads the requested track straight away. */
  lemma PlayRequestOnIdleLoads(p: Player, url: Url)
    requires p.queue == [] && !HasCurrent(p)
    ensures PlayRequest(p, url, true, false) == Started(Load(url, p))
  {
  }

  // ---------------------------------------------------------------------
  // Runs of events
  // ---------------------------------------------------------------------

  /** Every way the player state changes over its lifetime. */
  datatype Event =
    | TrackEnded
    | TrackStarted(url: Url)
    | PreviousPressed
    | LoopPressed
    | StopPressed
    | Requested(url: Url, announced: bool, voicePlaying: bool)

  function Step(p: Player, e: Event): Player {
    match e
    case TrackEnded => PlayNext(p).player
    case TrackStarted(url) => StartTrack(p, url)
    case PreviousPressed => Previous(p).player
    case LoopPressed => CycleLoop(p).player
    case StopPressed => Stop(p)
    case Requested(url, announced, playing) =>
      match PlayRequest(p, url, announced, playing)
      case Queued(p') => p'
      case Started(a) => a.player
  }

  function Run(p: Player, es: seq<Event>): Player
    decreases |es|
  {
    if |es| == 0 then p else Run(Step(p, es[0]), es[1..])
  }

  /** Every single transition keeps the history free of duplicates. */
  lemma StepKeepsValid(p: Player, e: Event)
    requires Valid(p)
    ensures Valid(Step(p, e))
  {
    match e
    case TrackEnded =>
    case TrackStarted(url) =>
    case PreviousPressed =>
    case LoopPressed =>
    case StopPressed =>
    case Requested(url, announced, playing) =>
  }

  /** No sequence of events ever records a URL twice in the history. */
  lemma {:induction false} RunKeepsValid(p: Player, es: seq<Event>)
    requires Valid(p)
    ensures Valid(Run(p, es))
    decreases |es|
  {
    if |es| > 0 {
      StepKeepsValid(p, es[0]);
      RunKeepsValid(Step(p, es[0]), es[1..]);
    }
  }
}
