/**
 * The `players` dictionary of bot.py: one `GuildPlayer` per guild id,
 * created on first access and dropped by the stop button, by the bot's own
 * voice disconnect and by the inactivity check.
 */
module Registry {
  import opened GuildPlayer

  type GuildId = int

  type Players = map<GuildId, Player>

  /** Every registered player keeps its history free of duplicates. */
  predicate AllValid(reg: Players) {
    forall g :: g in reg ==> Valid(reg[g])
  }

  /** `get_player`: the registry afterwards, and the player handed back. */
  datatype Access = Access(players: Players, player: Player)

  /** `get_player`: return the guild's player, creating a fresh one first if it has none. */
  function GetPlayer(reg: Players, g: GuildId): (a: Access)
    ensures g in a.players && a.players[g] == a.player
    ensures g in reg ==> a.players == reg && a.player == reg[g]
    ensures g !in reg ==> a.player == NewPlayer()
    ensures a.players.Keys == reg.Keys + {g}
    ensures forall h :: h in reg ==> a.players[h] == reg[h]
  {
    if g in reg then Access(reg, reg[g]) else Access(reg[g := NewPlayer()], NewPlayer())
  }

  /** `players.pop(guild_id, None)`: drop the guild's entry if there is one. */
  function Remove(reg: Players, g: GuildId): (r: Players)
    ensures r.Keys == reg.Keys - {g}
    ensures forall h :: h in r ==> r[h] == reg[h]
  {
    map h | h in reg && h != g :: reg[h]
  }

  /** A second access finds the player the first one created. */
  lemma GetPlayerIdempotent(reg: Players, g: GuildId)
    ensures var a := GetPlayer(reg, g); GetPlayer(a.players, g) == a
  {
  }

  /** After removal the next access starts over with a fresh player. */
  lemma RemoveThenGetIsFresh(reg: Players, g: GuildId)
    ensures GetPlayer(Remove(reg, g), g).player == NewPlayer()
  {
  }

  /**
   * The stop button: `get_player` runs first; with a voice client the
   * queue is cleared and the guild's entry is removed, otherwise nothing
   * else happens (the entry `get_player` may have created stays).
   */
  function PressStop(reg: Players, g: GuildId, voiceConnected: bool): (r: Players)
    ensures voiceConnected ==> r.Keys == reg.Keys - {g}
    ensures !voiceConnected ==> r == GetPlayer(reg, g).players
    ensures forall h :: h in reg && h != g ==> h in r && r[h] == reg[h]
  {
    var a := GetPlayer(reg, g);
    if voiceConnected then
      var stopped := a.players[g := Stop(a.player)];
      Remove(stopped, g)
    else
      a.players
  }

  /**
   * `on_voice_state_update`: when the bot itself leaves a voice channel
   * without joining another, its guild's entry is removed.
   */
  function BotVoiceStateChanged(reg: Players, g: GuildId, isBot: bool, wasInChannel: bool, nowInChannel: bool)
    : (r: Players)
    ensures isBot && wasInChannel && !nowInChannel ==> r.Keys == reg.Keys - {g}
    ensures !(isBot && wasInChannel && !nowInChannel) ==> r == reg
    ensures forall h :: h in r ==> h in reg && r[h] == reg[h]
  {
    if isBot && wasInChannel && !nowInChannel then Remove(reg, g) else reg
  }

  /**
   * The end of an idle `play_next`: after the wait, a connected voice
   * client that is not playing while the waiting player's queue is empty
   * is disconnected and the guild's entry removed.
   */
  function InactivityCheck(reg: Players, g: GuildId, waiting: Player, voiceConnected: bool, voicePlaying: bool)
    : (r: Players)
    ensures g in reg ==> ((voiceConnected && !voicePlaying && waiting.queue == []) <==> g !in r)
    ensures forall h :: h in r ==> h in reg && r[h] == reg[h]
    ensures forall h :: h in reg && h != g ==> h in r
  {
    if voiceConnected && !voicePlaying && waiting.queue == [] then Remove(reg, g) else reg
  }

  /** A handler's result: the registry afterwards and what the handler reported. */
  datatype Handled<T> = Handled(players: Players, outcome: T)

  /** The previous button, applied to the guild's (possibly fresh) player. */
  function PressPrevious(reg: Players, g: GuildId): (r: Handled<PreviousPress>)
    ensures r.players.Keys == reg.Keys + {g} && r.players[g] == r.outcome.player
    ensures r.outcome == Previous(GetPlayer(reg, g).player)
    ensures forall h :: h in reg && h != g ==> r.players[h] == reg[h]
  {
    var a := GetPlayer(reg, g);
    var res := Previous(a.player);
    Handled(a.players[g := res.player], res)
  }

  /** The loop button, applied to the guild's (possibly fresh) player. */
  function PressLoop(reg: Players, g: GuildId): (r: Handled<LoopPress>)
    ensures r.players.Keys == reg.Keys + {g} && r.players[g] == r.outcome.player
    ensures r.outcome == CycleLoop(GetPlayer(reg, g).player)
    ensures forall h :: h in reg && h != g ==> r.players[h] == reg[h]
  {
    var a := GetPlayer(reg, g);
    var res := CycleLoop(a.player);
    Handled(a.players[g := res.player], res)
  }

  /** `play_next` on the guild's (possibly fresh) player. */
  function AdvanceGuild(reg: Players, g: GuildId): (r: Handled<Advance>)
    ensures r.players.Keys == reg.Keys + {g} && r.players[g] == r.outcome.player
    ensures r.outcome == PlayNext(GetPlayer(reg, g).player)
    ensures forall h :: h in reg && h != g ==> r.players[h] == reg[h]
  {
    var a := GetPlayer(reg, g);
    var res := PlayNext(a.player);
    Handled(a.players[g := res.player], res)
  }

  /** Everything that changes the registry, guild by guild. */
  datatype GuildEvent =
      /** The bare `get_player` of the play/pause button, which only registers a player. */
    | Touched(g: GuildId)
    | PlayerEvent(g: GuildId, e: Event)
    | StopPressedIn(g: GuildId, voiceConnected: bool)
    | BotDisconnected(g: GuildId)
    | IdleTimedOut(g: GuildId, voiceConnected: bool, voicePlaying: bool)

  /**
   * One registry event. The previous button, the loop button and the end
   * of a track go through their handlers above; the other player events
   * act on the guild's (possibly fresh) player the same way. The idle
   * timeout inspects the player the guild holds when the wait ends.
   */
  function Apply(reg: Players, ev: GuildEvent): Players {
    match ev
    case Touched(g) => GetPlayer(reg, g).players
    case PlayerEvent(g, e) =>
      (match e
       case PreviousPressed => PressPrevious(reg, g).players
       case LoopPressed => PressLoop(reg, g).players
       case TrackEnded => AdvanceGuild(reg, g).players
       case _ =>
         var a := GetPlayer(reg, g);
         a.players[g := Step(a.player, e)])
    case StopPressedIn(g, connected) => PressStop(reg, g, connected)
    case BotDisconnected(g) => BotVoiceStateChanged(reg, g, true, true, false)
    case IdleTimedOut(g, connected, playing) =>
      InactivityCheck(reg, g, GetPlayer(reg, g).player, connected, playing)
  }

  function ApplyAll(reg: Players, evs: seq<GuildEvent>): Players
    decreases |evs|
  {
    if |evs| == 0 then reg else ApplyAll(Apply(reg, evs[0]), evs[1..])
  }

  /**
   * The previous button, the loop button and the end of a track, run
   * through their registry handlers, store exactly the player `Step`
   * computes for the event.
   */
  lemma PlayerEventIsStep(reg: Players, g: GuildId, e: Event)
    ensures var a := GetPlayer(reg, g);
            Apply(reg, PlayerEvent(g, e)) == a.players[g := Step(a.player, e)]
  {
    match e
    case PreviousPressed =>
    case LoopPressed =>
    case TrackEnded =>
    case _ =>
  }

  lemma ApplyKeepsValid(reg: Players, ev: GuildEvent)
    requires AllValid(reg)
    ensures AllValid(Apply(reg, ev))
  {
    match ev
    case Touched(g) =>
    case PlayerEvent(g, e) =>
      PlayerEventIsStep(reg, g, e);
      StepKeepsValid(GetPlayer(reg, g).player, e);
    case StopPressedIn(g, connected) =>
    case BotDisconnected(g) =>
    case IdleTimedOut(g, connected, playing) =>
  }

  /** From an empty registry, every player ever registered has a duplicate-free history. */
  lemma {:induction false} ApplyAllKeepsValid(reg: Players, evs: seq<GuildEvent>)
    requires AllValid(reg)
    ensures AllValid(ApplyAll(reg, evs))
    decreases |evs|
  {
    if |evs| > 0 {
      ApplyKeepsValid(reg, evs[0]);
      ApplyAllKeepsValid(Apply(reg, evs[0]), evs[1..]);
    }
  }

  /**
   * A guild whose queue has run out is left by the idle timeout that
   * follows, provided nothing started playing in the meantime.
   */
  lemma FinishedQueueThenIdleLeaves(reg: Players, g: GuildId)
    requires AdvanceGuild(reg, g).outcome.QueueFinished?
    ensures g !in Apply(AdvanceGuild(reg, g).players, IdleTimedOut(g, true, false))
  {
    var r := AdvanceGuild(reg, g).players;
    assert r[g].queue == [];
  }

  /** Events for one guild never change another guild's player. */
  lemma {:induction false} OtherGuildsUntouched(reg: Players, evs: seq<GuildEvent>, h: GuildId)
    requires h in reg
    requires forall i :: 0 <= i < |evs| ==> evs[i].g != h
    ensures h in ApplyAll(reg, evs) && ApplyAll(reg, evs)[h] == reg[h]
    decreases |evs|
  {
    if |evs| > 0 {
      var next := Apply(reg, evs[0]);
      assert h in next && next[h] == reg[h];
      OtherGuildsUntouched(next, evs[1..], h);
    }
  }
}
