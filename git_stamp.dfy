/**
 * The pure helpers of the notebook git stamp: the https URL of the `origin` remote,
 * the `±HHMM` form of a UTC offset, and the short commit hash with its dirty flag.
 */
module GitStamp {
  import opened Wrappers
  import opened Strings
  import opened Encoding

  // ---------------------------------------------------------------- remote URL

  /** The strings that may follow the path in an SSH remote: an optional ".git", then `$`. */
  predicate SshTail(rest: string) {
    rest == "" || rest == "\n" || rest == ".git" || rest == ".git\n"
  }

  /**
   * The pattern `git@([^:]+):(.+?)(?:\.git)?$`, anchored at the start, matches `url`
   * with `host` as its first group and `path` as its second (`.` never matches a newline;
   * `$` matches at the end or before a final newline).
   */
  predicate SshMatch(url: string, host: string, path: string) {
    && |host| >= 1 && ':' !in host
    && |path| >= 1 && '\n' !in path
    && 5 + |host| + |path| <= |url|
    && url[..5 + |host| + |path|] == "git@" + host + ":" + path
    && SshTail(url[5 + |host| + |path|..])
  }

  /** The line after the colon, without the newline `$` may stand before. */
  function DropFinalNewline(t: string): string {
    if EndsWith(t, "\n") then t[..|t| - 1] else t
  }

  /** The lazy second group: the line without one final ".git", unless that would leave nothing. */
  function SshPath(line: string): string {
    if EndsWith(line, ".git") && |line| > 4 then line[..|line| - 4] else line
  }

  /** The groups of the SSH pattern's match, or `None` when it does not match. */
  function SshRemote(url: string): Option<(string, string)> {
    if !StartsWith(url, "git@") then None
    else match FindFrom(url, ":", 4)
      case None => None
      case Some(c) =>
        if c == 4 then None
        else
          var line := DropFinalNewline(url[c + 1..]);
          if line == "" || '\n' in line then None
          else Some((url[4..c], SshPath(line)))
  }

  /** Python's `str.removesuffix`. */
  function RemoveSuffix(s: string, suffix: string): (r: string)
    ensures EndsWith(s, suffix) ==> r + suffix == s
    ensures !EndsWith(s, suffix) ==> r == s
  {
    if EndsWith(s, suffix) && |suffix| > 0 then s[..|s| - |suffix|] else s
  }

  /**
   * `remote_https_url`: `origin` is the first URL of the `origin` remote, `None` when
   * there is no such remote or it has no URL.
   */
  function RemoteHttpsUrl(origin: Option<string>): Option<string> {
    match origin
    case None => None
    case Some(url) =>
      match SshRemote(url)
      case Some((host, path)) => Some("https://" + host + "/" + path)
      case None => if StartsWith(url, "http") then Some(RemoveSuffix(url, ".git")) else None
  }

  /** The colon after a `[^:]+` host is the first colon from index 4 on. */
  lemma SshHostIsFirstColon(url: string, host: string, path: string)
    requires SshMatch(url, host, path)
    ensures FindFrom(url, ":", 4) == Some(4 + |host|)
    ensures url[4..4 + |host|] == host
  {
    var p := 5 + |host| + |path|;
    var head := url[..p];
    assert head == "git@" + host + ":" + path;
    assert url[4 + |host|] == head[4 + |host|] == ':';
    assert url[4 + |host|..5 + |host|] == ":";
    forall j | 4 <= j < 4 + |host| ensures !OccursAt(":", url, j) {
      assert url[j] == head[j] == host[j - 4];
      assert url[j..j + 1] == [url[j]];
    }
    FindFromAt(url, ":", 4, 4 + |host|);
    forall i | 0 <= i < |host| ensures url[4..4 + |host|][i] == host[i] {
      assert url[4 + i] == head[4 + i];
    }
  }

  /** The text after the colon is the path followed by the tail. */
  lemma SshLine(url: string, host: string, path: string)
    requires SshMatch(url, host, path)
    ensures var rest := url[5 + |host| + |path|..];
      DropFinalNewline(url[5 + |host|..]) == path + (if rest == ".git" || rest == ".git\n" then ".git" else "")
  {
    var c := 4 + |host|;
    var p := 5 + |host| + |path|;
    var head := url[..p];
    var rest := url[p..];
    assert url[c + 1..] == path + rest by {
      assert url[c + 1..p] == head[c + 1..] == path;
    }
    if rest == "\n" || rest == ".git\n" {
      assert EndsWith(path + rest, "\n");
      assert (path + rest)[..|path + rest| - 1] == path + rest[..|rest| - 1];
    } else {
      assert !EndsWith(path + rest, "\n") by {
        if rest == "" {
          assert (path + rest)[|path + rest| - 1] == path[|path| - 1];
          assert path[|path| - 1] in path;
        } else {
          assert (path + rest)[|path + rest| - 1] == 't';
        }
      }
    }
  }

  /**
   * `SshRemote` is the regular expression's match: it answers with groups that match
   * (the host fixed by the first colon, the path the shortest that fits the lazy
   * `.+?`), and answers `None` only when no groups match.
   */
  lemma SshRemoteIsShortestMatch(url: string)
    ensures SshRemote(url).Some? ==> SshMatch(url, SshRemote(url).value.0, SshRemote(url).value.1)
    ensures forall host, path :: SshMatch(url, host, path) ==>
      SshRemote(url).Some? && SshRemote(url).value.0 == host && |SshRemote(url).value.1| <= |path|
  {
    if SshRemote(url).Some? {
      SshRemoteSound(url);
    }
    forall host, path | SshMatch(url, host, path)
      ensures SshRemote(url).Some? && SshRemote(url).value.0 == host && |SshRemote(url).value.1| <= |path|
    {
      SshRemoteOfMatch(url, host, path);
      SshLine(url, host, path);
    }
  }

  /** Groups that match fix the answer: the host, and the path read off the line after the colon. */
  lemma SshRemoteOfMatch(url: string, host: string, path: string)
    requires SshMatch(url, host, path)
    ensures SshRemote(url) == Some((host, SshPath(DropFinalNewline(url[5 + |host|..]))))
  {
    SshHostIsFirstColon(url, host, path);
    SshLine(url, host, path);
    assert url[..4] == "git@" by {
      assert url[..4] == url[..5 + |host| + |path|][..4];
    }
    var line := DropFinalNewline(url[5 + |host|..]);
    assert '\n' !in line by {
      assert line[..|path|] == path;
      forall i | 0 <= i < |line| ensures line[i] != '\n' {
        if i < |path| {
          assert line[i] == path[i];
        }
      }
    }
    SshRemoteAt(url, 4 + |host|, line);
  }

  /** The characters between "git@" and the first colon are no colons. */
  lemma HostColonFree(url: string, c: nat)
    requires 4 <= c <= |url| && forall j :: 4 <= j < c ==> !OccursAt(":", url, j)
    ensures ':' !in url[4..c]
  {
    forall i | 0 <= i < c - 4 ensures url[4..c][i] != ':' {
      assert !OccursAt(":", url, 4 + i);
      assert url[4 + i..5 + i] == [url[4..c][i]];
    }
  }

  /** The text after the colon is the line and at most one final newline. */
  lemma LineThenNewline(t: string)
    ensures DropFinalNewline(t) + (if EndsWith(t, "\n") then "\n" else "") == t
  {
  }

  /** The path is the line with at most one ".git" removed, so it has no newline if the line has none. */
  lemma PathThenDotGit(line: string, path: string)
    requires '\n' !in line
    requires path == SshPath(line)
    ensures path + (if EndsWith(line, ".git") && |line| > 4 then ".git" else "") == line
    ensures '\n' !in path
  {
    assert forall i :: 0 <= i < |path| ==> path[i] == line[i];
  }

  /** A string made of three parts, cut after the first. */
  lemma SplitAfterFirst(a: string, b: string, c: string, t: string)
    requires (a + b) + c == t
    ensures |a| <= |t|
    ensures t[..|a|] == a && t[|a|..] == b + c
  {
  }

  /** The groups read off at the first colon `c` match when the rest is an allowed tail. */
  lemma SshMatchAt(url: string, c: nat, path: string)
    requires 4 < c < |url| && url[..4] == "git@" && url[c..c + 1] == ":" && ':' !in url[4..c]
    requires |path| >= 1 && '\n' !in path && c + 1 + |path| <= |url|
    requires url[c + 1..][..|path|] == path && SshTail(url[c + 1..][|path|..])
    ensures SshMatch(url, url[4..c], path)
  {
    var p := c + 1 + |path|;
    assert url[c + 1..p] == path;
    assert url[..p] == url[..4] + url[4..c] + url[c..c + 1] + url[c + 1..p];
    assert url[p..] == url[c + 1..][|path|..];
  }

  /** The parts `SshRemote` reads: the "git@" prefix, the first colon `c` after it and the line after that colon. */
  predicate SshParts(url: string, c: nat, line: string) {
    && StartsWith(url, "git@") && FindFrom(url, ":", 4) == Some(c) && c != 4
    && line == DropFinalNewline(url[c + 1..]) && line != "" && '\n' !in line
  }

  /** The answer of `SshRemote` when its parts are present. */
  lemma SshRemoteAt(url: string, c: nat, line: string)
    requires SshParts(url, c, line)
    ensures SshRemote(url) == Some((url[4..c], SshPath(line)))
  {
  }

  /** An answer of `SshRemote` comes from its parts. */
  lemma SshRemoteParts(url: string) returns (c: nat, line: string)
    requires SshRemote(url).Some?
    ensures SshParts(url, c, line) && SshRemote(url) == Some((url[4..c], SshPath(line)))
    ensures 4 < c < |url| && url[..4] == "git@" && url[c..c + 1] == ":" && ':' !in url[4..c]
  {
    c := FindFrom(url, ":", 4).value;
    line := DropFinalNewline(url[c + 1..]);
    HostColonFree(url, c);
  }

  /** Every answer of `SshRemote` is a match of the pattern. */
  lemma SshRemoteSound(url: string)
    requires SshRemote(url).Some?
    ensures SshMatch(url, SshRemote(url).value.0, SshRemote(url).value.1)
  {
    var c, line := SshRemoteParts(url);
    SshMatchOfParts(url, c, line);
  }

  /** The groups read off the parts match the pattern. */
  lemma SshMatchOfParts(url: string, c: nat, line: string)
    requires 4 < c < |url| && url[..4] == "git@" && url[c..c + 1] == ":" && ':' !in url[4..c]
    requires line == DropFinalNewline(url[c + 1..]) && line != "" && '\n' !in line
    ensures SshMatch(url, url[4..c], SshPath(line))
  {
    var t := url[c + 1..];
    var path := SshPath(line);
    var withNl := EndsWith(t, "\n");
    var withGit := EndsWith(line, ".git") && |line| > 4;
    var nl := if withNl then "\n" else "";
    var dotGit := if withGit then ".git" else "";
    LineThenNewline(t);
    PathThenDotGit(line, path);
    SplitAfterFirst(path, dotGit, nl, t);
    assert |path| >= 1;
    AllowedTails(withGit, withNl);
    SshMatchAt(url, c, path);
  }

  /** At most one ".git" followed by at most one newline is an allowed tail. */
  lemma AllowedTails(withGit: bool, withNl: bool)
    ensures SshTail((if withGit then ".git" else "") + (if withNl then "\n" else ""))
  {
    if withGit && withNl {
      assert ".git" + "\n" == ".git\n";
    }
  }

  /**
   * An SSH remote written from a host and a path, with or without ".git", gives
   * `https://host/path` (without ".git" the path must not itself end in ".git").
   */
  lemma SshRemoteRoundTrip(host: string, path: string, withGit: bool)
    requires |host| >= 1 && ':' !in host && |path| >= 1 && '\n' !in path
    requires !withGit ==> !EndsWith(path, ".git")
    ensures RemoteHttpsUrl(Some("git@" + host + ":" + path + (if withGit then ".git" else "")))
         == Some("https://" + host + "/" + path)
  {
    var core := "git@" + host + ":" + path;
    var url := core + (if withGit then ".git" else "");
    assert url[..|core|] == core;
    assert SshMatch(url, host, path);
    SshRemoteOfMatch(url, host, path);
    SshLine(url, host, path);
    var line := DropFinalNewline(url[5 + |host|..]);
    assert url[|core|..] == (if withGit then ".git" else "");
    if withGit {
      assert line == path + ".git";
      assert line[..|line| - 4] == path;
    } else {
      assert line == path;
    }
  }

  /** An http(s) remote keeps its text with one trailing ".git" removed. */
  lemma HttpRemote(url: string)
    requires StartsWith(url, "http")
    ensures RemoteHttpsUrl(Some(url)) == Some(RemoveSuffix(url, ".git"))
    ensures EndsWith(url, ".git") ==> RemoteHttpsUrl(Some(url)).value + ".git" == url
    ensures !EndsWith(url, ".git") ==> RemoteHttpsUrl(Some(url)).value == url
  {
    assert url[0] == 'h';
  }

  /** Removing ".git" from a URL starting with "http" keeps the "http". */
  lemma RemoveDotGitKeepsHttp(url: string)
    requires StartsWith(url, "http")
    ensures StartsWith(RemoveSuffix(url, ".git"), "http")
  {
    if EndsWith(url, ".git") {
      assert url[|url| - 4] == url[|url| - 4..][0] == '.';
      assert forall i :: 0 <= i < 4 ==> url[i] == url[..4][i] != '.';
      assert RemoveSuffix(url, ".git")[..4] == url[..4];
    }
  }

  lemma HttpsStartsWithHttp(host: string, path: string)
    ensures StartsWith("https://" + host + "/" + path, "http")
  {
    assert ("https://" + host + "/" + path)[..4] == "http";
  }

  /**
   * No remote, or a remote the pattern does not match that does not start with "http",
   * gives no URL; any URL given starts with "http", so it is never empty.
   */
  lemma RemoteHttpsUrlNoneIff(origin: Option<string>)
    ensures RemoteHttpsUrl(origin).None? <==>
      origin.None? || (SshRemote(origin.value).None? && !StartsWith(origin.value, "http"))
    ensures RemoteHttpsUrl(origin).Some? ==> StartsWith(RemoteHttpsUrl(origin).value, "http")
  {
    if origin.Some? {
      match SshRemote(origin.value)
      case Some((host, path)) =>
        HttpsStartsWithHttp(host, path);
      case None =>
        if StartsWith(origin.value, "http") {
          RemoveDotGitKeepsHttp(origin.value);
        }
    }
  }

  /** The link is shown exactly when a URL was found: `if remote_url` only tests for `None`. */
  lemma CommitLinkShownIff(origin: Option<string>, sha: string)
    ensures (CommitLink(RemoteHttpsUrl(origin), ShortHash(sha)).Some?) <==> RemoteHttpsUrl(origin).Some?
  {
    RemoteHttpsUrlNoneIff(origin);
  }

  /** The Markdown link to the commit, when the URL is a non-empty string. */
  function CommitLink(remoteUrl: Option<string>, shortHash: string): Option<string> {
    if remoteUrl.None? || remoteUrl.value == "" then None
    else Some("<" + remoteUrl.value + "/commit/" + shortHash + ">")
  }

  // ---------------------------------------------------------------- UTC offset

  /** A timestamp's time zone: none, or one whose `utcoffset` is `None` or a number of microseconds. */
  datatype TzInfo = Naive | Aware(utcOffsetMicros: Option<int>)

  /** Python's `int()` of a float: division rounding toward zero. */
  function TruncDiv(a: int, b: int): int
    requires b > 0
  {
    if a >= 0 then a / b else -((-a) / b)
  }

  function Abs(n: int): nat {
    if n >= 0 then n else -n
  }

  /** `offset_str`. */
  function OffsetStr(tz: TzInfo): string {
    match tz
    case Naive => "+0000"
    case Aware(None) => "+0000"
    case Aware(Some(micros)) =>
      var seconds := TruncDiv(micros, 1000000);
      var sign := if seconds >= 0 then '+' else '-';
      var hours := Abs(seconds) / 3600;
      var remainder := Abs(seconds) % 3600;
      var minutes := remainder / 60;
      [sign] + ZeroPad2(hours) + ZeroPad2(minutes)
  }

  /** Reading a `±HHMM` string back as a number of seconds. */
  function OffsetSeconds(s: string): Option<int> {
    if |s| != 5 || (s[0] != '+' && s[0] != '-') || !AllDigits(s[1..]) then None
    else
      var magnitude := DigitsValue(s[1..3]) * 3600 + DigitsValue(s[3..5]) * 60;
      Some(if s[0] == '+' then magnitude else -magnitude)
  }

  lemma AllDigitsConcat(a: string, b: string)
    requires AllDigits(a) && AllDigits(b)
    ensures AllDigits(a + b)
  {
    assert forall i :: 0 <= i < |a + b| ==> (a + b)[i] == if i < |a| then a[i] else b[i - |a|];
  }

  /**
   * For an offset under a day (the range Python allows), the string has five
   * characters and reads back as the offset truncated toward zero to whole minutes,
   * with "+" for zero; without an offset it is "+0000".
   */
  lemma OffsetStrReadsBack(tz: TzInfo)
    requires tz.Aware? && tz.utcOffsetMicros.Some? ==> Abs(TruncDiv(tz.utcOffsetMicros.value, 1000000)) < 86400
    ensures |OffsetStr(tz)| == 5
    ensures (tz.Naive? || tz.utcOffsetMicros.None?) ==> OffsetStr(tz) == "+0000"
    ensures tz.Aware? && tz.utcOffsetMicros.Some? ==>
      var seconds := TruncDiv(tz.utcOffsetMicros.value, 1000000);
      && (OffsetStr(tz)[0] == '+' <==> seconds >= 0)
      && OffsetSeconds(OffsetStr(tz)) == Some(if seconds >= 0 then seconds / 60 * 60 else -(Abs(seconds) / 60 * 60))
  {
    if tz.Aware? && tz.utcOffsetMicros.Some? {
      var seconds := TruncDiv(tz.utcOffsetMicros.value, 1000000);
      var hours := Abs(seconds) / 3600;
      var minutes := Abs(seconds) % 3600 / 60;
      MinutesOf(Abs(seconds));
      var sign := if seconds >= 0 then '+' else '-';
      var hh, mm := ZeroPad2(hours), ZeroPad2(minutes);
      assert OffsetStr(tz) == [sign] + hh + mm;
      FieldsOf(sign, hh, mm);
      SignedFieldsRead([sign] + hh + mm, hh, mm);
    }
  }

  /** Whole hours and the remaining whole minutes of an offset under a day. */
  lemma MinutesOf(a: nat)
    requires a < 86400
    ensures a / 3600 < 100 && a % 3600 / 60 < 100
    ensures a / 3600 * 3600 + a % 3600 / 60 * 60 == a / 60 * 60
  {
    var q, r := a / 3600, a % 3600;
    var m, t := r / 60, r % 60;
    assert a == 60 * (60 * q + m) + t;
  }

  /** A sign and two two-digit fields read back as hours and minutes in seconds. */
  lemma SignedFieldsRead(s: string, hh: string, mm: string)
    requires |s| == 5 && (s[0] == '+' || s[0] == '-')
    requires s[1..3] == hh && s[3..5] == mm && AllDigits(hh) && AllDigits(mm)
    ensures OffsetSeconds(s)
         == Some(if s[0] == '+' then DigitsValue(hh) * 3600 + DigitsValue(mm) * 60 else -(DigitsValue(hh) * 3600 + DigitsValue(mm) * 60))
  {
    assert s[1..] == hh + mm;
    AllDigitsConcat(hh, mm);
    ReadOffset(s);
  }

  /** Where the sign and the two fields stand in the string. */
  lemma FieldsOf(sign: char, hh: string, mm: string)
    requires |hh| == 2 && |mm| == 2
    ensures var s := [sign] + hh + mm;
      |s| == 5 && s[0] == sign && s[1..] == hh + mm && s[1..3] == hh && s[3..5] == mm
  {
  }

  /** `OffsetSeconds` of a well-formed string, in terms of its two fields. */
  lemma ReadOffset(s: string)
    requires |s| == 5 && (s[0] == '+' || s[0] == '-') && AllDigits(s[1..])
    ensures OffsetSeconds(s)
         == Some(if s[0] == '+' then DigitsValue(s[1..3]) * 3600 + DigitsValue(s[3..5]) * 60
                 else -(DigitsValue(s[1..3]) * 3600 + DigitsValue(s[3..5]) * 60))
  {
  }

  // ---------------------------------------------------------------- commit hash

  /** `hexsha[:12]`: the first twelve characters, or all of a shorter string. */
  function ShortHash(sha: string): (r: string)
    ensures |r| == if |sha| < 12 then |sha| else 12
    ensures StartsWith(sha, r)
  {
    if |sha| <= 12 then sha else sha[..12]
  }

  /** "*" for a working tree with changes or untracked files. */
  function DirtyFlag(dirty: bool): string {
    if dirty then "*" else ""
  }

  /**
   * For a full 40-character hash the displayed text is its first twelve characters,
   * followed by "*" exactly when the tree is dirty.
   */
  lemma HashTextOfCommit(sha: string, dirty: bool)
    requires |sha| == 40
    ensures var text := ShortHash(sha) + DirtyFlag(dirty);
      && text[..12] == sha[..12]
      && (dirty <==> |text| == 13)
      && (dirty ==> text[12] == '*')
  {
  }
}
