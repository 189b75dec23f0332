# djvlad music player: a Dafny model

This project models the state-handling core of the djvlad voice-channel music
bot and its FFmpeg installer script.

- **Player state.** Each guild has a `GuildPlayer` holding a queue of page URLs,
  a de-duplicated playback history, a loop mode (off, track, queue) and the URL
  of the current track.
- **Transitions.** The buttons and the playback loop change that state: advance
  after a track ends (`play_next`), record a started track, previous, loop
  cycling, stop, and the play command's enqueue.
- **Registry.** The `players` dictionary maps guild ids to players. It creates a
  player on first access and drops it on stop, on the bot's own voice
  disconnect and after the inactivity wait.
- **Pure helpers.** `format_time`, the progress clamp, `create_progress_bar` and
  the footer text of the "Now Playing" panel.
- **Track choice.** The search-entry filter, the ranking that picks the best
  entry, the audio-format pick, and the search-strategy list with its
  try-in-order loop.
- **FFmpeg installer.** Architecture-name normalisation, the (system,
  architecture) → URL table, the archive file name and the archive-type
  dispatch.

The model follows the code as written, quirks included. Each quirk below is
stated in a contract or a lemma:

- `play_next` does not clear the current track when the queue is non-empty.
  Only a successful `play_track` overwrites it (an ensures of `PlayNext`).
- `previous` pops the last history entry as if it were the current track. The
  history is de-duplicated, so replaying an earlier track breaks that
  assumption: previous then queues the track that is already playing, twice
  (`PreviousAfterReplayQueuesCurrentTwice`).
- In loop-track mode, the advance that follows a previous press puts the
  current track back at the head. The current track is replayed instead of the
  prior one (`PreviousUnderLoopTrackReplaysCurrent`).
- A bar with 14 of 15 cells filled is drawn exactly like a full bar
  (`AlmostFullLooksFull`).
- Python truthiness is kept. A current-track URL that is `None` or the empty
  string counts as "no current track" (the definition `HasCurrent`).

Modules:

| file | module | contents |
|---|---|---|
| wrappers.dfy | `Wrappers` | `Option`, `Result` |
| sequences.dfy | `Sequences` | `Distinct` |
| text.dfy | `Text` | decimal rendering, `{n:02d}` padding, reading digits back |
| player.dfy | `GuildPlayer` | player state, transitions, event runs |
| registry.dfy | `Registry` | guild → player map and the handlers that change it |
| display.dfy | `Display` | time text, progress clamp and bar, footer |
| search.dfy | `Search` | entry filter, ranking, audio format, search strategies |
| ffmpeg_setup.dfy | `FfmpegSetup` | FFmpeg download selection |

## Model

| member | source | states |
|---|---|---|
| `Text.Decimal` | bot.py:234 | `str(n)` of a non-negative count is all digits, with no leading zero, and is one character exactly when n < 10 |
| `Text.DecimalRoundTrip` | bot.py:234 | reading the decimal text of n back gives n |
| `Text.DecimalInjective` | bot.py:234 | different counts never print the same |
| `Text.Pad2` | bot.py:161-162 | `{n:02d}` yields at least two digits, exactly two below 100, never a leading zero from 10 up, and reads back as n |
| `GuildPlayer.CycleLoop` | bot.py:114-117 | a loop press moves Off to Track, Track to Queue, and Queue to Off (and only Queue reaches Off), reports the matching status word, and leaves queue, history and current untouched |
| `GuildPlayer.LoopPeriodThree` | bot.py:114 | three loop presses restore the original state |
| `GuildPlayer.PlayNext` | bot.py:252-264 | loop track replays the finished track with the queue unchanged; loop queue rotates it to the tail before popping the head; otherwise the head is popped; the queue is finished iff it is empty and nothing was re-inserted, which clears current; on the load path current is kept and history and mode never change |
| `GuildPlayer.PlayNextKeepsTracks` | bot.py:252-261 | the popped track plus the new queue are, as a multiset, the old queue plus the finished track when a loop mode re-inserted it |
| `GuildPlayer.StartTrack` | bot.py:364-370 | a started track becomes current; the history is unchanged if it already holds the URL and gains it at the end otherwise, so it keeps its old entries as a prefix and stays duplicate-free |
| `GuildPlayer.StartTrackIdempotent` | bot.py:369-370 | starting the same URL twice records it once |
| `GuildPlayer.StartTrackHistorySet` | bot.py:369-370 | the set of history URLs gains exactly the started URL |
| `GuildPlayer.Previous` | bot.py:72-87 | fails with no state change iff the history has at most one entry; otherwise the last two history entries go, the second-to-last heads the queue, followed by the current track if any, then the old queue |
| `GuildPlayer.PreviousThenAdvanceLoadsPrior` | bot.py:73-84 | with loop off, previous followed by the advance its stop triggers loads the prior track and leaves the interrupted track next in line |
| `GuildPlayer.PreviousUnderLoopTrackReplaysCurrent` | bot.py:253-254 | with loop track, that advance reloads the current track and the prior track waits second in line |
| `GuildPlayer.PreviousAfterReplayQueuesCurrentTwice` | bot.py:76-78 | after replaying an already-recorded track, previous queues the playing track twice and empties the history |
| `GuildPlayer.ReplayKeepsHistory` | bot.py:369-370 | replaying a recorded URL leaves the history as it was |
| `GuildPlayer.PreviousOfReplayed` | bot.py:76-84 | on that replayed state, previous queues the playing track twice and empties the history |
| `GuildPlayer.Stop` | bot.py:128 | the stop button empties the queue and changes nothing else |
| `GuildPlayer.Enqueue` | bot.py:679 | the chosen URL is appended at the tail, with the old queue kept as a prefix |
| `GuildPlayer.EnqueueServedAfterQueue` | bot.py:259-260 | with loop off, the track already at the head is served first and the new URL waits behind the rest of the queue |
| `GuildPlayer.PlayRequest` | bot.py:679-706 | the URL is only queued when playback is running or the confirmation message raises; otherwise playback starts, always with a load (never "queue finished"): the current track under loop track, else the old queue's head (or the new URL). The remaining queue is stated for each loop mode, and the loaded track plus the remaining queue hold, as a multiset, the old queue, the new URL and any re-inserted current track, so within one player the request is never lost; history, mode and current are kept |
| `GuildPlayer.PlayRequestOnIdleLoads` | bot.py:691-701 | a request to an idle player loads that track at once and leaves the queue empty |
| `GuildPlayer.RunKeepsValid` | bot.py:369-370 | no sequence of transitions ever records a URL twice in the history |
| `Registry.GetPlayer` | bot.py:58-62 | returns the registered player if present, else registers and returns a fresh one; other guilds keep their players |
| `Registry.Remove` | bot.py:136 | removes exactly the guild's key and keeps every other entry |
| `Registry.GetPlayerIdempotent` | bot.py:60-62 | a second access returns the same player and registry |
| `Registry.RemoveThenGetIsFresh` | bot.py:60-61 | after removal, the next access starts from a fresh player |
| `Registry.PressStop` | bot.py:124-136 | with a voice client the guild's entry is removed and others are kept; without one, only `get_player`'s effect remains |
| `Registry.BotVoiceStateChanged` | bot.py:741-754 | the entry is removed exactly when the bot itself leaves a channel without joining another |
| `Registry.InactivityCheck` | bot.py:269-272 | after the idle wait, a registered guild is removed iff its voice client is connected and not playing and the waiting player's queue is empty; every other guild keeps its player |
| `Registry.PressPrevious` | bot.py:71-87 | previous acts on the guild's (possibly fresh) player, and the result is stored back under that guild only |
| `Registry.PressLoop` | bot.py:113-114 | a loop press acts on the guild's (possibly fresh) player and only its entry changes |
| `Registry.AdvanceGuild` | bot.py:248-261 | `play_next` acts on the guild's (possibly fresh) player and only its entry changes |
| `Registry.PlayerEventIsStep` | bot.py:71-117 | the previous, loop and advance handlers store exactly the player the corresponding player transition computes |
| `Registry.FinishedQueueThenIdleLeaves` | bot.py:262-272 | once the queue has run out, the idle timeout that follows with a connected, silent voice client removes the guild |
| `Registry.ApplyAllKeepsValid` | bot.py:369-370 | across any sequence of registry events, every registered player's history stays duplicate-free |
| `Registry.OtherGuildsUntouched` | bot.py:56-62 | events for other guilds, idle timeouts included, never change a guild's player |
| `Display.FormatTime` | bot.py:156-162 | below one hour `MM:SS`, otherwise `HH:MM:SS` whose hour field is zero-padded only to two digits; minute and second fields stay below 60, and parsing the text back gives the input |
| `Display.FormatTimeInjective` | bot.py:159-162 | different durations are never shown as the same text |
| `Display.Progress` | bot.py:176 | the clamped progress lies in [0, 1], is 0 when duration <= 0, is 1 once elapsed reaches the duration, and is elapsed/duration before that |
| `Display.FilledCellsOfProgress` | bot.py:142-143 | the filled-cell count is at most 15 and equals `min(15, 15 * elapsed // duration)`, or 0 without a duration |
| `Display.ProgressBar` | bot.py:140-154 | between backticks the bar has max(15, filled) cells with exactly one marker, at the first unfilled cell or the last cell of a full bar; filled cells come before it and empty cells after |
| `Display.AlmostFullLooksFull` | bot.py:149-152 | 14 and 15 filled cells render identically |
| `Display.ProgressBarInjectiveBelowFull` | bot.py:149-150 | below a full bar, different fill counts render differently |
| `Display.PanelBarWidth` | bot.py:176-196 | the bar shown on the panel is always 15 cells wide |
| `Display.QueueTextRoundTrip` | bot.py:233-234 | the queue text reads back as the queue size and says "tracks" iff the size is not 1 |
| `Display.Footer` | bot.py:232-239 | the footer is wrapped in `**` iff a loop mode is on; inside, it is the loop label, the " • Queue: " separator and the queue text (`"1 track"`, otherwise `"<n> tracks"`), from which the queue size reads back |
| `Display.FooterInjective` | bot.py:232-239 | different loop modes or queue sizes never give the same footer |
| `Search.UsableEntries` | bot.py:605-610 | exactly the dict entries with `url` and `title` survive, converted, and nothing else is produced |
| `Search.UsableEntriesSingle` | bot.py:605-610 | one entry yields its candidate iff it is usable, else nothing |
| `Search.UsableEntriesAppend` | bot.py:596-610 | the filter keeps the entries' order: filtering a concatenation concatenates the filtered parts |
| `Search.ValidateInfo` | bot.py:583-637 | each error names its cause: no info, no entries, an entry that is not a dict, no usable entry among dict entries, or a single video without url or title; a success holds a non-empty candidate list, or the video's own url (as page URL), title, view, like and duration fields |
| `Search.BestCandidate` | bot.py:668-674 | the chosen index holds a maximal (views, likes, duration) key and is strictly greater than every earlier key, as in a stable descending sort |
| `Search.SortHeadUnique` | bot.py:668-674 | exactly one index is the head of the stable descending sort |
| `Search.ChosenUrl` | bot.py:665-691 | the queued URL is the single video's page URL or the sort head's page URL |
| `Search.LastAudioOnly` | bot.py:338-340 | returns the last format with `acodec != 'none'` and `vcodec == 'none'`, or none iff no format qualifies |
| `Search.StreamUrl` | bot.py:335-343 | a direct url wins; otherwise it succeeds iff the last audio-only format has a url, which it then supplies; "no suitable audio format" is reported iff none exists |
| `Search.SearchStrategies` | bot.py:641-647 | five search strings: the query, then the query with " music", " audio", " official" and " lyrics" |
| `Search.StrategiesDistinct` | bot.py:659 | the five strategies are pairwise distinct, so the last-strategy test fires only on the last one |
| `Search.TryStrategies` | bot.py:650-662 | a success is the first successful strategy; a failure is the error (of any kind, the extraction call's own included) of a strategy equal to the last one; with distinct strategies it fails iff every strategy fails |
| `FfmpegSetup.Lower` | setup_ffmpeg.py:37-38 | lower-casing keeps the length, maps A-Z to a-z, keeps other characters, and leaves no A-Z behind |
| `FfmpegSetup.LowerIdempotent` | setup_ffmpeg.py:37-38 | lower-casing twice equals lower-casing once |
| `FfmpegSetup.NormalizeArch` | setup_ffmpeg.py:41-52 | amd64/x64/x86_64 become x86_64, i386/x86 become x86, arm64/aarch64 become aarch64, other names are kept; the result is a fixed point of the table |
| `FfmpegSetup.NormalizeIdempotent` | setup_ffmpeg.py:52 | normalising twice equals normalising once |
| `FfmpegSetup.SelectUrl` | setup_ffmpeg.py:55-80 | a URL is chosen iff the pair is one of windows{x86_64,x86}, linux{x86_64,aarch64}, darwin{x86_64,aarch64}; otherwise the unsupported system or architecture error, with the available architectures |
| `FfmpegSetup.FileName` | setup_ffmpeg.py:81 | the file name is the URL's ending after its last slash: it contains no slash and is the whole URL or follows a slash |
| `FfmpegSetup.FileNameKeepsSuffix` | setup_ffmpeg.py:81 | a slash-free ending of the URL is also an ending of the file name |
| `FfmpegSetup.ArchiveKind` | setup_ffmpeg.py:88-94 | `.zip` goes to zip extraction; `.tar.xz` (not `.zip`) goes to tar extraction; anything else is the unsupported-archive error |
| `FfmpegSetup.SetupPlan` | setup_ffmpeg.py:37-94 | a plan exists only for a supported pair; its URL is the table's entry for the lower-cased system and normalised machine, its file name is the URL's last path segment, and it unpacks as zip iff that name ends in `.zip`, as tar.xz otherwise |
| `FfmpegSetup.TableUrlsAreArchives` | setup_ffmpeg.py:55-68 | every URL in the table names a `.zip` or `.tar.xz` file |
| `FfmpegSetup.SetupPlanSucceedsIffSupported` | setup_ffmpeg.py:71-94 | setup is planned iff the pair is supported, and the unsupported-archive exit is unreachable |

## Left out

- Discord plumbing: gateway events, view and button wiring, sending, editing and deleting messages, and the message handler's fallback logic (bot.py:432-514). All of it is network I/O.
- Embed fields other than the time, the bar and the footer, including thousands-separated view and like counts. These are presentation only.
- Voice and playback side effects: connect, `play`/`stop`/`pause`/`resume`, and the `after_playing` callback that runs `play_next` from another thread. A stop or skip appears in the model only as the `TrackEnded` event it triggers.
- The ordering race between that callback and the stop handler's registry removal is not modelled. The callback could re-create a fresh player after stop. Resolving this needs concurrency semantics.
- The failure paths of `play_track` (no voice channel, extraction or FFmpeg errors). These appear only as "no `TrackStarted` event follows a `Load`", which keeps the stale current track as the code does.
- `webpage_url` reconstruction and the default-filling of missing fields in `play_track` (bot.py:317-359). These are metadata plumbing around extraction.
- Media extraction itself, its option dictionaries and its `match_filter`. Each strategy's extraction outcome is a parameter of `Search.TryStrategies`.
- The check at bot.py:654 is not modelled: it always holds for results that passed `Search.ValidateInfo`.
- Timing: the progress refresh loop and its sleeps, the 180-second wait, and wall-clock `datetime` arithmetic. Elapsed seconds are an input, and the wait's outcome is the inputs of `Registry.InactivityCheck`.
- Pause and resume, which only touch the voice client and timestamps. Line 96 of bot.py leaves the start time unchanged, so no pause clock is modelled.
- Display.Progress: computed over exact reals rather than binary floating point, so `int(15 * progress)` may differ from the model by one cell where a float quotient rounds just below an integer.
- Display.FormatTime: takes a non-negative whole number of seconds. The float truncation `int(seconds)` and negative inputs are not modelled, because every caller passes a non-negative elapsed time or duration.
- GuildPlayer.PlayRequest: whether the confirmation message raises is an input (`announced`). The model does not derive it from a `view_count` or `duration` key holding `None` (bot.py:682-683, 694-695), because entries model a key holding `None` as an absent key.
- Search.UsableEntries: an entry keeps or loses its place by whether its `url` and `title` hold values, not by whether the keys are present. The code tests only key presence (bot.py:607), so it keeps an entry whose `url` or `title` holds `None`, and such an entry can be ranked first; the model drops it, because `Option` cannot tell an absent key from a key holding `None`.
- Search.ValidateInfo: inherits that gap. A result whose entries all hold `None` in `url` or `title` is `NoValidSearchResults` in the model, and a single video whose `url` or `title` key holds `None` is `IncompleteVideoInformation`. The code accepts both (bot.py:607, 624).
- Search.StreamUrl: `direct` is absent exactly when the info has no `url` key (bot.py:335). A `url` key holding `None` is not modelled: the code then skips the format search, and the log line at bot.py:346 raises, so `play_track` fails; the model reads that case as an absent key and may succeed from the formats. `Option` cannot tell an absent key from a key holding `None`.
- The idle-timeout event reads the queue of the player registered when the wait ends. The code reads the player it captured before the wait; the two differ only when the guild's entry was removed and re-created during the wait.
- The play command and `play_track` also look up the guild's player once, before they await (bot.py:535 before the search, bot.py:280 before extraction). They then write to that object: the queued URL at bot.py:679 or 691, and the current track and history at bot.py:364-370. If the guild's entry is removed during the await, by the idle check (bot.py:270-272), the stop button (bot.py:136) or the bot's disconnect (bot.py:754), the write lands on a player the registry no longer holds. A request can then be lost: `play_next` (bot.py:248) starts from a fresh player and reports the queue finished, although the user was told the track was added. The model applies `Requested` and `TrackStarted` to the player registered when the event happens, so it does not show this loss; modelling it needs the interleaving of awaits.
- Search.BestCandidate: a ranking key present with value `None` (which makes Python's sort raise) is modelled as absent, i.e. as 0. Keys are integers, not floats.
- FfmpegSetup.Lower: lower-cases ASCII letters only, not all of Unicode. Platform names are ASCII.
- Process and file-system code: signal handling and process killing (bot.py:756-805), and download, extraction, moves, `chmod` and cleanup in setup_ffmpeg.py. This includes the `r:gz` mode used to open `.tar.xz` archives at setup_ffmpeg.py:26, which is an I/O-level defect.
