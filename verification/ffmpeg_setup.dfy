/**
 * The decisions of setup_ffmpeg.py: which download the platform gets,
 * the archive's file name, and how the archive is unpacked. Downloading,
 * unpacking and moving files are left to the caller.
 */
module FfmpegSetup {
  import opened Wrappers

  /** ASCII lower-casing, as `str.lower()` acts on platform names. */
  function Lower(s: string): (r: string)
    ensures |r| == |s|
    ensures forall i :: 0 <= i < |s| ==> ('A' <= s[i] <= 'Z' ==> r[i] as int == s[i] as int + 32)
    ensures forall i :: 0 <= i < |s| ==> (!('A' <= s[i] <= 'Z') ==> r[i] == s[i])
    ensures forall i :: 0 <= i < |r| ==> !('A' <= r[i] <= 'Z')
  {
    seq(|s|, i requires 0 <= i < |s| =>
      if 'A' <= s[i] <= 'Z' then (s[i] as int + 32) as char else s[i])
  }

  /** Lower-casing twice is lower-casing once. */
  lemma LowerIdempotent(s: string)
    ensures Lower(Lower(s)) == Lower(s)
  {
    var r := Lower(s);
    assert forall i :: 0 <= i < |r| ==> Lower(r)[i] == r[i];
  }

  const ArchMap: map<string, string> := map[
    "amd64" := "x86_64",
    "x86_64" := "x86_64",
    "x64" := "x86_64",
    "i386" := "x86",
    "x86" := "x86",
    "arm64" := "aarch64",
    "aarch64" := "aarch64"
  ]

  /** `arch_map.get(machine, machine)`. */
  function NormalizeArch(machine: string): (r: string)
    ensures machine == "amd64" || machine == "x64" || machine == "x86_64" ==> r == "x86_64"
    ensures machine == "i386" || machine == "x86" ==> r == "x86"
    ensures machine == "arm64" || machine == "aarch64" ==> r == "aarch64"
    ensures machine !in ArchMap ==> r == machine
    ensures r in ArchMap ==> ArchMap[r] == r
  {
    if machine in ArchMap then ArchMap[machine] else machine
  }

  /** Normalising an already normalised name changes nothing. */
  lemma NormalizeIdempotent(machine: string)
    ensures NormalizeArch(NormalizeArch(machine)) == NormalizeArch(machine)
  {
  }

  const WinX64Url := "https://github.com/BtbN/FFmpeg-Builds/releases/download/latest/ffmpeg-master-latest-win64-gpl" + ".zip"
  const WinX86Url := "https://github.com/BtbN/FFmpeg-Builds/releases/download/latest/ffmpeg-master-latest-win32-gpl" + ".zip"
  const LinuxX64Url := "https://johnvansickle.com/ffmpeg/releases/ffmpeg-release-amd64-static" + ".tar.xz"
  const LinuxArmUrl := "https://johnvansickle.com/ffmpeg/releases/ffmpeg-release-arm64-static" + ".tar.xz"
  const MacUrl := "https://evermeet.cx/ffmpeg/ffmpeg-6.1" + ".zip"

  const Urls: map<string, map<string, string>> := map[
    "windows" := map["x86_64" := WinX64Url, "x86" := WinX86Url],
    "linux" := map["x86_64" := LinuxX64Url, "aarch64" := LinuxArmUrl],
    "darwin" := map["x86_64" := MacUrl, "aarch64" := MacUrl]
  ]

  /** Every failure ends the script with `sys.exit(1)`. */
  datatype SetupError =
    | UnsupportedSystem(system: string)
    | UnsupportedArchitecture(machine: string, available: set<string>)
    | UnsupportedArchiveFormat(filename: string)

  /** The exact platforms the table serves. */
  predicate SupportedPair(system: string, arch: string) {
    || (system == "windows" && (arch == "x86_64" || arch == "x86"))
    || (system == "linux" && (arch == "x86_64" || arch == "aarch64"))
    || (system == "darwin" && (arch == "x86_64" || arch == "aarch64"))
  }

  /** The download URL for an already lower-cased system and machine name. */
  function SelectUrl(system: string, machine: string): (r: Result<string, SetupError>)
    ensures r.Success? <==> SupportedPair(system, NormalizeArch(machine))
    ensures r.Success? ==> r.value == Urls[system][NormalizeArch(machine)]
    ensures system !in Urls ==> r == Failure(UnsupportedSystem(system))
    ensures system in Urls && NormalizeArch(machine) !in Urls[system] ==>
              r == Failure(UnsupportedArchitecture(NormalizeArch(machine), Urls[system].Keys))
  {
    var arch := NormalizeArch(machine);
    if system !in Urls then Failure(UnsupportedSystem(system))
    else if arch !in Urls[system] then Failure(UnsupportedArchitecture(arch, Urls[system].Keys))
    else Success(Urls[system][arch])
  }

  /** `url.split('/')[-1]`: everything after the last slash, or the whole string. */
  function FileName(url: string): (r: string)
    ensures '/' !in r
    ensures |r| <= |url| && r == url[|url| - |r|..]
    ensures |r| < |url| ==> url[|url| - |r| - 1] == '/'
  {
    if |url| == 0 || url[|url| - 1] == '/' then ""
    else
      var rest := FileName(url[..|url| - 1]);
      rest + [url[|url| - 1]]
  }

  predicate EndsWith(s: string, suffix: string) {
    |suffix| <= |s| && s[|s| - |suffix|..] == suffix
  }

  /** A slash-free ending of the URL is also an ending of its file name. */
  lemma {:induction false} FileNameKeepsSuffix(url: string, suffix: string)
    requires EndsWith(url, suffix) && '/' !in suffix
    ensures EndsWith(FileName(url), suffix)
    decreases |url|
  {
    if |suffix| > 0 {
      var last := url[|url| - 1];
      assert last == suffix[|suffix| - 1];
      var init := url[..|url| - 1];
      var sinit := suffix[..|suffix| - 1];
      assert init[|init| - |sinit|..] == sinit;
      FileNameKeepsSuffix(init, sinit);
      assert FileName(url) == FileName(init) + [last];
    }
  }

  datatype Archive = Zip | TarXz

  /** The extension test of `setup_ffmpeg`: `.zip`, then `.tar.xz`, else exit. */
  function ArchiveKind(filename: string): (r: Result<Archive, SetupError>)
    ensures r == Success(Zip) <==> EndsWith(filename, ".zip")
    ensures r == Success(TarXz) <==> EndsWith(filename, ".tar.xz") && !EndsWith(filename, ".zip")
    ensures r.Failure? ==> r.error == UnsupportedArchiveFormat(filename)
  {
    if EndsWith(filename, ".zip") then Success(Zip)
    else if EndsWith(filename, ".tar.xz") then Success(TarXz)
    else Failure(UnsupportedArchiveFormat(filename))
  }

  datatype Plan = Plan(url: string, filename: string, archive: Archive)

  /** Everything `setup_ffmpeg` decides before touching the file system. */
  function SetupPlan(rawSystem: string, rawMachine: string): (r: Result<Plan, SetupError>)
    ensures r.Success? ==> SupportedPair(Lower(rawSystem), NormalizeArch(Lower(rawMachine)))
    ensures r.Success? ==> r.value.url == Urls[Lower(rawSystem)][NormalizeArch(Lower(rawMachine))]
    ensures r.Success? ==> r.value.filename == FileName(r.value.url)
    ensures r.Success? ==> '/' !in r.value.filename && EndsWith(r.value.url, r.value.filename)
    ensures r.Success? ==> (r.value.archive == Zip <==> EndsWith(r.value.filename, ".zip"))
    ensures r.Success? ==> (r.value.archive == TarXz <==> !EndsWith(r.value.filename, ".zip"))
  {
    var selected := SelectUrl(Lower(rawSystem), Lower(rawMachine));
    if selected.Failure? then Failure(selected.error)
    else
      var filename := FileName(selected.value);
      var kind := ArchiveKind(filename);
      if kind.Failure? then Failure(kind.error)
      else Success(Plan(selected.value, filename, kind.value))
  }

  lemma EndsWithAppended(prefix: string, suffix: string)
    ensures EndsWith(prefix + suffix, suffix)
  {
    assert (prefix + suffix)[|prefix|..] == suffix;
  }

  /** The table holds five distinct downloads. */
  lemma TableEntries(system: string, arch: string)
    requires SupportedPair(system, arch)
    ensures system in Urls && arch in Urls[system]
    ensures Urls[system][arch] in {WinX64Url, WinX86Url, MacUrl} ||
            Urls[system][arch] in {LinuxX64Url, LinuxArmUrl}
  {
  }

  /** Every URL in the table is a `.zip` or a `.tar.xz` archive. */
  lemma TableUrlsAreArchives(system: string, arch: string)
    requires SupportedPair(system, arch)
    ensures var f := FileName(Urls[system][arch]); EndsWith(f, ".zip") || EndsWith(f, ".tar.xz")
  {
    TableEntries(system, arch);
    var url := Urls[system][arch];
    if url in {LinuxX64Url, LinuxArmUrl} {
      EndsWithAppended("https://johnvansickle.com/ffmpeg/releases/ffmpeg-release-amd64-static", ".tar.xz");
      EndsWithAppended("https://johnvansickle.com/ffmpeg/releases/ffmpeg-release-arm64-static", ".tar.xz");
      FileNameKeepsSuffix(url, ".tar.xz");
    } else {
      EndsWithAppended("https://github.com/BtbN/FFmpeg-Builds/releases/download/latest/ffmpeg-master-latest-win64-gpl", ".zip");
      EndsWithAppended("https://github.com/BtbN/FFmpeg-Builds/releases/download/latest/ffmpeg-master-latest-win32-gpl", ".zip");
      EndsWithAppended("https://evermeet.cx/ffmpeg/ffmpeg-6.1", ".zip");
      FileNameKeepsSuffix(url, ".zip");
    }
  }

  /**
   * A platform is served exactly when it is in the table, and the
   * unsupported-archive exit is unreachable for any served platform.
   */
  lemma SetupPlanSucceedsIffSupported(rawSystem: string, rawMachine: string)
    ensures SetupPlan(rawSystem, rawMachine).Success? <==>
            SupportedPair(Lower(rawSystem), NormalizeArch(Lower(rawMachine)))
    ensures !SetupPlan(rawSystem, rawMachine).Failure? ||
            !SetupPlan(rawSystem, rawMachine).error.UnsupportedArchiveFormat?
  {
    var system, arch := Lower(rawSystem), NormalizeArch(Lower(rawMachine));
    if SupportedPair(system, arch) {
      TableUrlsAreArchives(system, arch);
    }
  }
}
