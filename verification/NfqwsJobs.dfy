// NFQWS job definitions: normalization and the single-flight key.

module NfqwsJobs {
  import opened Text
  import opened Wrappers

  const MIN_MINUTES: int := 15
  const MAX_MINUTES: int := 1440

  datatype Kind = DetectTarget | StrategyHealthRecheck | Tcp16Revalidate | NfqueueHealth | BackupCleanup

  // A job as a request or the configuration file gives it.
  datatype RawJob = RawJob(id: string, kind: string, target: string, interval: int, enabled: bool)

  datatype Job = Job(id: string, kind: Kind, target: string, interval: int, enabled: bool)

  datatype Reason = InvalidId | NeedsHostname | NeedsTcp16Id | RefreshUnavailable | UnsupportedKind | IntervalOutOfRange

  function Name(kind: Kind): string {
    match kind
    case DetectTarget => "detect-target"
    case StrategyHealthRecheck => "strategy-health-recheck"
    case Tcp16Revalidate => "tcp16-revalidate"
    case NfqueueHealth => "nfqueue-health"
    case BackupCleanup => "backup-cleanup"
  }

  function KindNamed(name: string): Result<Kind, Reason> {
    if name == Name(DetectTarget) then Ok(DetectTarget)
    else if name == Name(StrategyHealthRecheck) then Ok(StrategyHealthRecheck)
    else if name == Name(Tcp16Revalidate) then Ok(Tcp16Revalidate)
    else if name == Name(NfqueueHealth) then Ok(NfqueueHealth)
    else if name == Name(BackupCleanup) then Ok(BackupCleanup)
    else if name == "list-refresh" then Err(RefreshUnavailable)
    else Err(UnsupportedKind)
  }

  // Case mapping as far as it can lead into ASCII: the Kelvin sign and the
  // dotted capital I fold down, the long s and the dotless i fold up. No other
  // character of another script maps to ASCII, and such a character is refused
  // with either mapping.
  function LowerChar(c: char): char {
    if 'A' <= c <= 'Z' then c - 'A' + 'a'
    else if c == '\U{212A}' then 'k'
    else if c == '\U{130}' then 'i'
    else c
  }

  function UpperChar(c: char): char {
    if 'a' <= c <= 'z' then c - 'a' + 'A'
    else if c == '\U{17F}' then 'S'
    else if c == '\U{131}' then 'I'
    else c
  }

  // Letter by letter.
  lemma CaseMeans(k: nat, c: char)
    requires k < 26
    ensures LowerChar("ABCDEFGHIJKLMNOPQRSTUVWXYZ"[k]) == "abcdefghijklmnopqrstuvwxyz"[k]
    ensures UpperChar("abcdefghijklmnopqrstuvwxyz"[k]) == "ABCDEFGHIJKLMNOPQRSTUVWXYZ"[k]
    ensures LowerChar('\U{212A}') == 'k' && LowerChar('\U{130}') == 'i' && UpperChar('\U{17F}') == 'S' && UpperChar('\U{131}') == 'I'
    ensures LowerChar(c) != c ==> 'A' <= c <= 'Z' || c == '\U{212A}' || c == '\U{130}'
    ensures UpperChar(c) != c ==> 'a' <= c <= 'z' || c == '\U{17F}' || c == '\U{131}'
  {
    assert "ABCDEFGHIJKLMNOPQRSTUVWXYZ"[k] == 'A' + k as char && "abcdefghijklmnopqrstuvwxyz"[k] == 'a' + k as char;
  }

  function Lower(s: string): (r: string)
    ensures |r| == |s| && forall i :: 0 <= i < |s| ==> r[i] == LowerChar(s[i])
  {
    if s == "" then "" else [LowerChar(s[0])] + Lower(s[1..])
  }

  function Upper(s: string): (r: string)
    ensures |r| == |s| && forall i :: 0 <= i < |s| ==> r[i] == UpperChar(s[i])
  {
    if s == "" then "" else [UpperChar(s[0])] + Upper(s[1..])
  }

  predicate IdChar(c: char) {
    'a' <= c <= 'z' || 'A' <= c <= 'Z' || '0' <= c <= '9' || c == '-' || c == '_'
  }

  predicate ValidId(id: string) {
    id != "" && |id| <= 64 && forall i :: 0 <= i < |id| ==> IdChar(id[i])
  }

  // [a-z0-9] of a case-insensitive pattern: it also matches the long s and the
  // Kelvin sign.
  predicate HostChar(c: char) {
    'a' <= c <= 'z' || 'A' <= c <= 'Z' || '0' <= c <= '9' || c == '\U{17F}' || c == '\U{212A}'
  }

  predicate HostLabel(s: string) {
    1 <= |s| <= 63 && HostChar(s[0]) && HostChar(s[|s| - 1]) && forall i :: 0 <= i < |s| ==> HostChar(s[i]) || s[i] == '-'
  }

  // strings.Split(s, ".")
  function Labels(s: string): (r: seq<string>)
    ensures r != []
  {
    if s == "" then [""]
    else
      var rest := Labels(s[1..]);
      if s[0] == '.' then [""] + rest else [[s[0]] + rest[0]] + rest[1..]
  }

  // The target pattern: two or more labels.
  predicate Hostname(s: string) {
    var labels := Labels(s);
    |labels| >= 2 && forall i :: 0 <= i < |labels| ==> HostLabel(labels[i])
  }

  predicate Octet(s: string) {
    && 1 <= |s| <= 3 && (forall i :: 0 <= i < |s| ==> Digit(s[i]))
    && (|s| > 1 ==> s[0] != '0') && Decimal(s) <= 255
  }

  // What net.ParseIP accepts among hostnames: a dotted quad.
  predicate IsIp(s: string) {
    var labels := Labels(s);
    |labels| == 4 && forall i :: 0 <= i < 4 ==> Octet(labels[i])
  }

  predicate Tcp16Char(c: char) { 'A' <= c <= 'Z' || '0' <= c <= '9' || c == '-' }

  predicate Tcp16(s: string) {
    2 <= |s| <= 32 && s[0] != '-' && forall i :: 0 <= i < |s| ==> Tcp16Char(s[i])
  }

  function TrimDot(s: string): string {
    if s != "" && s[|s| - 1] == '.' then s[..|s| - 1] else s
  }

  function HostTarget(target: string): Result<string, Reason> {
    var t := Lower(TrimDot(target));
    if !Hostname(t) || IsIp(t) then Err(NeedsHostname) else Ok(t)
  }

  function Tcp16Target(target: string): Result<string, Reason> {
    var t := Upper(target);
    if t != "" && !Tcp16(t) then Err(NeedsTcp16Id) else Ok(t)
  }

  // The target a job of this kind is stored with.
  function TargetFor(kind: Kind, target: string): Result<string, Reason> {
    match kind
    case DetectTarget => HostTarget(target)
    case StrategyHealthRecheck => HostTarget(target)
    case Tcp16Revalidate => Tcp16Target(target)
    case NfqueueHealth => Ok("")
    case BackupCleanup => Ok("")
  }

  function NormalizeAs(named: Result<Kind, Reason>, raw: RawJob): Result<Job, Reason> {
    var id := Trim(raw.id);
    if !ValidId(id) then Err(InvalidId)
    else if named.Err? then Err(named.error)
    else
      var t := TargetFor(named.value, Trim(raw.target));
      if t.Err? then Err(t.error)
      else if !(MIN_MINUTES <= raw.interval <= MAX_MINUTES) then Err(IntervalOutOfRange)
      else Ok(Job(id, named.value, t.value, raw.interval, raw.enabled))
  }

  function Normalize(raw: RawJob): Result<Job, Reason> { NormalizeAs(KindNamed(Lower(Trim(raw.kind))), raw) }

  function Raw(job: Job): RawJob { RawJob(job.id, Name(job.kind), job.target, job.interval, job.enabled) }

  // A stored job: normalizing it again changes nothing.
  predicate Normal(job: Job) { Normalize(Raw(job)) == Ok(job) }

  function Key(job: Job): string { Name(job.kind) + "|" + Lower(Trim(job.target)) }

  // ---- what is accepted ----------------------------------------------------

  function Dotted(labels: seq<string>): string {
    if |labels| == 0 then "" else if |labels| == 1 then labels[0] else labels[0] + "." + Dotted(labels[1..])
  }

  // The labels are what stands between the dots.
  lemma {:induction false} LabelsAre(s: string)
    ensures Dotted(Labels(s)) == s && forall i :: 0 <= i < |Labels(s)| ==> '.' !in Labels(s)[i]
  {
    if s != "" {
      var rest := Labels(s[1..]);
      LabelsAre(s[1..]);
      if s[0] == '.' {
        assert ([""] + rest)[1..] == rest;
        assert "" + "." + s[1..] == s;
      } else {
        var labels := [[s[0]] + rest[0]] + rest[1..];
        assert labels[1..] == rest[1..];
        if |rest| == 1 {
          assert [s[0]] + s[1..] == s;
        } else {
          assert [s[0]] + rest[0] + "." + Dotted(rest[1..]) == [s[0]] + (rest[0] + "." + Dotted(rest[1..]));
          assert [s[0]] + s[1..] == s;
        }
      }
    }
  }

  // A number up to 255 without leading zeros, digit by digit.
  lemma OctetMeans(s: string)
    ensures Octet(s) <==>
      || (|s| == 1 && '0' <= s[0] <= '9')
      || (|s| == 2 && '1' <= s[0] <= '9' && '0' <= s[1] <= '9')
      || (|s| == 3 && s[0] == '1' && '0' <= s[1] <= '9' && '0' <= s[2] <= '9')
      || (|s| == 3 && s[0] == '2' && '0' <= s[1] <= '4' && '0' <= s[2] <= '9')
      || (|s| == 3 && s[0] == '2' && s[1] == '5' && '0' <= s[2] <= '5')
  {
    if 1 <= |s| <= 3 && forall i :: 0 <= i < |s| ==> Digit(s[i]) {
      assert Digit(s[0]) && (|s| > 1 ==> Digit(s[1])) && (|s| > 2 ==> Digit(s[2]));
      DecimalOfThree(s);
    } else if 1 <= |s| <= 3 {
      var i :| 0 <= i < |s| && !Digit(s[i]);
      assert i == 0 || i == 1 || i == 2;
    }
  }

  lemma DecimalOfThree(s: string)
    requires 1 <= |s| <= 3 && forall i :: 0 <= i < |s| ==> Digit(s[i])
    ensures |s| == 1 ==> Decimal(s) == s[0] as int - 48
    ensures |s| == 2 ==> Decimal(s) == 10 * (s[0] as int - 48) + s[1] as int - 48
    ensures |s| == 3 ==> Decimal(s) == 100 * (s[0] as int - 48) + 10 * (s[1] as int - 48) + s[2] as int - 48
  {
    assert Digit(s[0]);
    if |s| > 1 {
      var t := s[..|s| - 1];
      assert t[0] == s[0] && t[..0] == "";
      if |t| == 2 { assert t[..1][0] == s[0] && t[1] == s[1] && t[..1][..0] == ""; }
    } else {
      assert s[..0] == "";
    }
  }

  // A label: letters, digits and inner hyphens, at most 63 characters.
  predicate IsLabel(l: string) {
    && 1 <= |l| <= 63 && l[0] != '-' && l[|l| - 1] != '-'
    && forall i :: 0 <= i < |l| ==>
         'a' <= l[i] <= 'z' || 'A' <= l[i] <= 'Z' || '0' <= l[i] <= '9' || l[i] == '-' || l[i] == '\U{17F}' || l[i] == '\U{212A}'
  }

  lemma HostnameMeans(s: string)
    ensures Hostname(s) <==> |Labels(s)| >= 2 && forall i :: 0 <= i < |Labels(s)| ==> IsLabel(Labels(s)[i])
  {
    forall i | 0 <= i < |Labels(s)| ensures HostLabel(Labels(s)[i]) <==> IsLabel(Labels(s)[i]) {}
  }

  // A request is stored exactly when its id, kind, target and interval are good.
  lemma NormalizeMeans(raw: RawJob)
    ensures Normalize(raw).Ok? <==>
      var id, kind, target := Trim(raw.id), Lower(Trim(raw.kind)), Trim(raw.target);
      && 1 <= |id| <= 64
      && (forall i :: 0 <= i < |id| ==> 'a' <= id[i] <= 'z' || 'A' <= id[i] <= 'Z' || '0' <= id[i] <= '9' || id[i] == '-' || id[i] == '_')
      && 15 <= raw.interval <= 1440
      && (|| ((kind == "detect-target" || kind == "strategy-health-recheck")
              && Hostname(Lower(TrimDot(target))) && !IsIp(Lower(TrimDot(target))))
          || (kind == "tcp16-revalidate"
              && (target == ""
                  || (2 <= |target| <= 32 && Upper(target)[0] != '-'
                      && forall i :: 0 <= i < |target| ==>
                           'A' <= Upper(target)[i] <= 'Z' || '0' <= Upper(target)[i] <= '9' || Upper(target)[i] == '-')))
          || kind == "nfqueue-health" || kind == "backup-cleanup")
  {
    var id, kind, target := Trim(raw.id), Lower(Trim(raw.kind)), Trim(raw.target);
    assert ValidId(id) <==> 1 <= |id| <= 64 && forall i :: 0 <= i < |id| ==>
      'a' <= id[i] <= 'z' || 'A' <= id[i] <= 'Z' || '0' <= id[i] <= '9' || id[i] == '-' || id[i] == '_';
    KindsAre(kind);
    Tcp16Means(target);
  }

  // And it is stored as it was given, but for space, case and a final dot.
  lemma NormalizedIs(raw: RawJob)
    requires Normalize(raw).Ok?
    ensures var n, target := Normalize(raw).value, Trim(raw.target);
      && n.id == Trim(raw.id) && n.interval == raw.interval && n.enabled == raw.enabled
      && Name(n.kind) == Lower(Trim(raw.kind))
      && n.target == if n.kind == DetectTarget || n.kind == StrategyHealthRecheck then Lower(TrimDot(target))
                     else if n.kind == Tcp16Revalidate then Upper(target) else ""
  {
    KindsAre(Lower(Trim(raw.kind)));
  }

  lemma OneDotGoes(s: string)
    ensures TrimDot(s + ".") == s && (s == "" || s[|s| - 1] != '.' ==> TrimDot(s) == s)
  {
    assert (s + ".")[..|s|] == s;
  }

  lemma KindsAre(name: string)
    ensures KindNamed(name) == Ok(DetectTarget) <==> name == "detect-target"
    ensures KindNamed(name) == Ok(StrategyHealthRecheck) <==> name == "strategy-health-recheck"
    ensures KindNamed(name) == Ok(Tcp16Revalidate) <==> name == "tcp16-revalidate"
    ensures KindNamed(name) == Ok(NfqueueHealth) <==> name == "nfqueue-health"
    ensures KindNamed(name) == Ok(BackupCleanup) <==> name == "backup-cleanup"
  {
    NamedBack(DetectTarget);
    NamedBack(StrategyHealthRecheck);
    NamedBack(Tcp16Revalidate);
    NamedBack(NfqueueHealth);
    NamedBack(BackupCleanup);
  }

  lemma Tcp16Means(target: string)
    ensures Tcp16Target(target).Ok? <==>
      || target == ""
      || (2 <= |target| <= 32 && Upper(target)[0] != '-'
          && forall i :: 0 <= i < |target| ==>
               'A' <= Upper(target)[i] <= 'Z' || '0' <= Upper(target)[i] <= '9' || Upper(target)[i] == '-')
  {}

  // ---- normalization is idempotent -----------------------------------------

  lemma LowerTwice(s: string)
    ensures Lower(Lower(s)) == Lower(s)
  {}

  lemma UpperTwice(s: string)
    ensures Upper(Upper(s)) == Upper(s)
  {}

  // A string and its split start and end alike.
  lemma {:induction false} LabelEnds(s: string)
    requires s != ""
    ensures var l := Labels(s);
      && (l[0] != "" ==> l[0][0] == s[0])
      && (l[|l| - 1] != "" ==> l[|l| - 1][|l[|l| - 1]| - 1] == s[|s| - 1])
      && (|l| == 1 ==> l[0] != "")
  {
    if |s| > 1 {
      LabelEnds(s[1..]);
    } else {
      assert Labels(s[1..]) == [""];
    }
  }

  lemma HostnameEnds(s: string)
    requires Hostname(s)
    ensures s != "" && HostChar(s[0]) && HostChar(s[|s| - 1])
  {
    var l := Labels(s);
    if s != "" {
      LabelEnds(s);
      assert HostLabel(l[0]) && HostLabel(l[|l| - 1]);
    }
  }

  lemma HostTwice(target: string)
    requires HostTarget(target).Ok?
    ensures var t := HostTarget(target).value; Trim(t) == t && Lower(t) == t && HostTarget(t) == HostTarget(target)
  {
    var t := HostTarget(target).value;
    HostnameEnds(t);
    TrimNothing(t);
    LowerTwice(TrimDot(target));
  }

  lemma Tcp16Twice(target: string)
    requires Tcp16Target(target).Ok?
    ensures var t := Tcp16Target(target).value; Trim(t) == t && (t == "" || Tcp16(t)) && Tcp16Target(t) == Tcp16Target(target)
  {
    var t := Tcp16Target(target).value;
    UpperTwice(target);
    assert t == "" || (Tcp16Char(t[0]) && Tcp16Char(t[|t| - 1]));
    TrimNothing(t);
  }

  lemma TargetTwice(kind: Kind, target: string)
    requires TargetFor(kind, target).Ok?
    ensures var t := TargetFor(kind, target).value; Trim(t) == t && TargetFor(kind, t) == TargetFor(kind, target)
  {
    match kind
    case DetectTarget => HostTwice(target);
    case StrategyHealthRecheck => HostTwice(target);
    case Tcp16Revalidate => Tcp16Twice(target);
    case NfqueueHealth =>
    case BackupCleanup =>
  }

  predicate KindChar(c: char) { 'a' <= c <= 'z' || '0' <= c <= '9' || c == '-' }

  predicate Plain(s: string) { s != "" && forall i :: 0 <= i < |s| ==> KindChar(s[i]) }

  lemma KindCharStays(c: char)
    requires KindChar(c)
    ensures !IsSpace(c) && LowerChar(c) == c && c != '|'
  {}

  lemma PlainStays(s: string)
    requires Plain(s)
    ensures Lower(Trim(s)) == s && '|' !in s
  {
    KindCharStays(s[0]);
    KindCharStays(s[|s| - 1]);
    TrimNothing(s);
    forall i | 0 <= i < |s| ensures Lower(s)[i] == s[i] && s[i] != '|' { KindCharStays(s[i]); }
  }

  lemma NameIsPlain(kind: Kind)
    ensures Plain(Name(kind))
  {}

  lemma NamedBack(kind: Kind)
    ensures KindNamed(Name(kind)) == Ok(kind)
  {}

  lemma NormalizeAsParts(named: Result<Kind, Reason>, raw: RawJob)
    requires NormalizeAs(named, raw).Ok?
    ensures ValidId(Trim(raw.id)) && named.Ok? && TargetFor(named.value, Trim(raw.target)).Ok?
    ensures MIN_MINUTES <= raw.interval <= MAX_MINUTES
    ensures NormalizeAs(named, raw).value
         == Job(Trim(raw.id), named.value, TargetFor(named.value, Trim(raw.target)).value, raw.interval, raw.enabled)
  {}

  lemma NormalizeAsSame(named: Result<Kind, Reason>, raw: RawJob)
    requires ValidId(raw.id) && Trim(raw.id) == raw.id && MIN_MINUTES <= raw.interval <= MAX_MINUTES
    requires named.Ok? && TargetFor(named.value, Trim(raw.target)) == Ok(raw.target)
    ensures NormalizeAs(named, raw) == Ok(Job(raw.id, named.value, raw.target, raw.interval, raw.enabled))
  {}

  lemma NormalizeAsTwice(named: Result<Kind, Reason>, raw: RawJob, n: Job, name: string)
    requires NormalizeAs(named, raw) == Ok(n)
    ensures named == Ok(n.kind) && ValidId(n.id) && MIN_MINUTES <= n.interval <= MAX_MINUTES
    ensures TargetFor(n.kind, Trim(n.target)) == Ok(n.target)
    ensures NormalizeAs(named, RawJob(n.id, name, n.target, n.interval, n.enabled)) == Ok(n)
  {
    NormalizeAsParts(named, raw);
    PartsTwice(named, raw.id, raw.target, n, name);
  }

  lemma PartsTwice(named: Result<Kind, Reason>, id: string, target: string, n: Job, name: string)
    requires named == Ok(n.kind) && n.id == Trim(id) && ValidId(n.id) && TargetFor(n.kind, Trim(target)) == Ok(n.target)
    requires MIN_MINUTES <= n.interval <= MAX_MINUTES
    ensures TargetFor(n.kind, Trim(n.target)) == Ok(n.target)
    ensures NormalizeAs(named, RawJob(n.id, name, n.target, n.interval, n.enabled)) == Ok(n)
  {
    TrimIdempotent(id);
    TargetTwice(n.kind, Trim(target));
    NormalizeAsSame(named, RawJob(n.id, name, n.target, n.interval, n.enabled));
  }

  // What is stored is a fixpoint of normalization.
  lemma NormalizeIsNormal(raw: RawJob)
    requires Normalize(raw).Ok?
    ensures Normal(Normalize(raw).value)
  {
    var n := Normalize(raw).value;
    var kind := n.kind;
    NormalizeAsTwice(KindNamed(Lower(Trim(raw.kind))), raw, n, Name(kind));
    NameIsPlain(kind);
    PlainStays(Name(kind));
    NamedBack(kind);
  }

  // A job is normal when its id and target stay and its interval is in range.
  lemma PartsAreNormal(job: Job)
    requires ValidId(job.id) && Trim(job.id) == job.id && MIN_MINUTES <= job.interval <= MAX_MINUTES
    requires TargetFor(job.kind, Trim(job.target)) == Ok(job.target)
    ensures Normal(job)
  {
    NameIsPlain(job.kind);
    PlainStays(Name(job.kind));
    NamedBack(job.kind);
    NormalizeAsSame(Ok(job.kind), Raw(job));
  }

  lemma NormalParts(job: Job)
    requires Normal(job)
    ensures ValidId(job.id) && MIN_MINUTES <= job.interval <= MAX_MINUTES
    ensures TargetFor(job.kind, Trim(job.target)) == Ok(job.target)
  {
    NormalizeAsTwice(KindNamed(Lower(Trim(Name(job.kind)))), Raw(job), job, "");
  }

  // ---- the key -------------------------------------------------------------

  lemma UpperDistinct(a: string, b: string)
    requires (a == "" || Tcp16(a)) && (b == "" || Tcp16(b)) && Lower(a) == Lower(b)
    ensures a == b
  {
    assert |a| == |Lower(a)| == |b|;
    forall i | 0 <= i < |a| ensures a[i] == b[i] {
      assert Tcp16Char(a[i]) && Tcp16Char(b[i]);
      assert Lower(a)[i] == Lower(b)[i];
    }
  }

  lemma TargetsDiffer(kind: Kind, a: string, b: string)
    requires TargetFor(kind, Trim(a)) == Ok(a) && TargetFor(kind, Trim(b)) == Ok(b) && Lower(Trim(a)) == Lower(Trim(b))
    ensures a == b
  {
    match kind
    case DetectTarget => HostTwice(Trim(a)); HostTwice(Trim(b));
    case StrategyHealthRecheck => HostTwice(Trim(a)); HostTwice(Trim(b));
    case Tcp16Revalidate =>
      Tcp16Twice(Trim(a));
      Tcp16Twice(Trim(b));
      UpperDistinct(a, b);
    case NfqueueHealth =>
    case BackupCleanup =>
  }

  lemma Splits(k: string, t: string, l: string, u: string)
    requires '|' !in k && '|' !in l && k + "|" + t == l + "|" + u
    ensures k == l && t == u
  {
    var s, m, n := k + "|" + t, |k|, |l|;
    assert s[m] == '|' && s[n] == '|';
    assert '|' !in s[..m] && '|' !in s[..n] by { assert s[..m] == k && s[..n] == l; }
    assert m == n;
    assert k == s[..m] && l == s[..n] && t == s[m + 1..] && u == s[n + 1..];
  }

  lemma SameName(a: Kind, b: Kind)
    requires Name(a) == Name(b)
    ensures a == b
  {
    NamedBack(a);
    NamedBack(b);
  }

  // Two stored jobs share a key exactly when they share kind and target.
  lemma KeyIsKindAndTarget(a: Job, b: Job)
    requires Normal(a) && Normal(b)
    ensures Key(a) == Key(b) <==> a.kind == b.kind && a.target == b.target
  {
    if Key(a) == Key(b) {
      NameIsPlain(a.kind);
      NameIsPlain(b.kind);
      PlainStays(Name(a.kind));
      PlainStays(Name(b.kind));
      Splits(Name(a.kind), Lower(Trim(a.target)), Name(b.kind), Lower(Trim(b.target)));
      SameName(a.kind, b.kind);
      NormalParts(a);
      NormalParts(b);
      TargetsDiffer(a.kind, a.target, b.target);
    }
  }
}
