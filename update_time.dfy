/**
 * The recency of a station's data: the detail feed's `lastupd` text
 * ("6 heure(s) 4 minute(s) 2 secondes") is searched with the pattern
 *
 *   (?:(?:(?<hours>\d+) heure\(s\) )?(?<minutes>\d+) minute\(s\) )?(?<seconds>\d+) secondes
 *
 * unanchored, leftmost match first, and the matched duration is subtracted
 * from the current time; no match gives the sentinel -1.
 *
 * The hours group sits inside the optional minutes group, so an hours count
 * only takes part when a minutes count follows it. Every `\d+` is followed by
 * a literal that starts with a space, so the greedy `\d+` can only succeed
 * with the whole run of digits at its start: NumberAt takes that run.
 */
module UpdateTime {
  import opened Wrappers
  import opened RubyString

  const HeureWord: string := " heure(s) "
  const MinuteWord: string := " minute(s) "
  const SecondesWord: string := " secondes"

  /** The named groups of a match; an absent group is `nil`. */
  datatype Captures = Captures(hours: Option<string>, minutes: Option<string>, seconds: string)

  /** A numeric group holds at least one digit and nothing else. */
  predicate IsNumber(d: string) {
    d != [] && AllDigits(d)
  }

  /** The shapes the pattern can capture: hours only together with minutes. */
  predicate WellFormed(c: Captures) {
    && (c.hours.Some? ==> c.minutes.Some? && IsNumber(c.hours.value))
    && (c.minutes.Some? ==> IsNumber(c.minutes.value))
    && IsNumber(c.seconds)
  }

  /** The text a match with captures `c` covers. */
  function Render(c: Captures): string {
    if c.hours.Some? then (c.hours.value + HeureWord) + RenderFromMinutes(c)
    else RenderFromMinutes(c)
  }

  /** The part of a match after the hours group. */
  function RenderFromMinutes(c: Captures): string {
    if c.minutes.Some? then (c.minutes.value + MinuteWord) + (c.seconds + SecondesWord)
    else c.seconds + SecondesWord
  }

  /** The text of a well-formed capture occurs in `s` at position `p`. */
  ghost predicate PhraseAt(s: string, p: nat, c: Captures) {
    WellFormed(c) && p + |Render(c)| <= |s| && s[p..p + |Render(c)|] == Render(c)
  }

  predicate WordAt(s: string, p: nat, w: string) {
    p + |w| <= |s| && s[p..p + |w|] == w
  }

  /** Where the run of digits that starts at `p` ends. */
  function DigitsEnd(s: string, p: nat): (e: nat)
    requires p <= |s|
    decreases |s| - p
    ensures p <= e <= |s|
    ensures forall k :: p <= k < e ==> IsDigit(s[k])
    ensures e == |s| || !IsDigit(s[e])
  {
    if p < |s| && IsDigit(s[p]) then DigitsEnd(s, p + 1) else p
  }

  /** `\d+` at position `p`: the whole run of digits there, if any. */
  function NumberAt(s: string, p: nat): Option<string>
    requires p <= |s|
  {
    var e := DigitsEnd(s, p);
    if e == p then None else Some(s[p..e])
  }

  /** `\d+` takes at least one digit, all of the run, and nothing but digits. */
  lemma NumberAtFacts(s: string, p: nat)
    requires p <= |s|
    ensures var r := NumberAt(s, p);
      && (r.Some? ==> IsNumber(r.value) && WordAt(s, p, r.value))
      && (r.Some? ==> p + |r.value| == |s| || !IsDigit(s[p + |r.value|]))
      && (r.None? <==> p == |s| || !IsDigit(s[p]))
  {
  }

  /** `(?<seconds>\d+) secondes` at `p`. */
  function MatchSeconds(s: string, p: nat): Option<Captures>
    requires p <= |s|
  {
    var sec := NumberAt(s, p);
    if sec.Some? && WordAt(s, p + |sec.value|, SecondesWord) then Some(Captures(None, None, sec.value))
    else None
  }

  /** `(?<minutes>\d+) minute\(s\) ` followed by the seconds part, at `p`. */
  function MatchMinutes(s: string, p: nat): Option<Captures>
    requires p <= |s|
  {
    var m := NumberAt(s, p);
    if m.Some? && WordAt(s, p + |m.value|, MinuteWord) then
      var rest := MatchSeconds(s, p + |m.value| + |MinuteWord|);
      if rest.Some? then Some(Captures(None, m, rest.value.seconds)) else None
    else None
  }

  /** `(?<hours>\d+) heure\(s\) ` followed by the minutes part, at `p`. */
  function MatchHours(s: string, p: nat): Option<Captures>
    requires p <= |s|
  {
    var h := NumberAt(s, p);
    if h.Some? && WordAt(s, p + |h.value|, HeureWord) then
      var rest := MatchMinutes(s, p + |h.value| + |HeureWord|);
      if rest.Some? then Some(Captures(h, rest.value.minutes, rest.value.seconds)) else None
    else None
  }

  /**
   * The pattern anchored at `p`. The optional groups are greedy, so the
   * engine tries hours-minutes-seconds, then minutes-seconds, then seconds.
   */
  function MatchAt(s: string, p: nat): (r: Option<Captures>)
    requires p <= |s|
    ensures r.Some? ==> p < |s| && IsDigit(s[p])
    ensures r.Some? ==> WellFormed(r.value)
  {
    if MatchHours(s, p).Some? then MatchHours(s, p)
    else if MatchMinutes(s, p).Some? then MatchMinutes(s, p)
    else MatchSeconds(s, p)
  }

  /** The outcome of the pattern anchored at each start position of `s`, in order. */
  function Attempts(s: string): (ms: seq<Option<Captures>>)
    ensures |ms| == |s| + 1
    ensures forall p :: 0 <= p <= |s| ==> ms[p] == MatchAt(s, p)
  {
    seq(|s| + 1, p requires 0 <= p <= |s| => MatchAt(s, p))
  }

  /** The first outcome in `ms` from `from` on that is a match, with its index. */
  function FirstSome(ms: seq<Option<Captures>>, from: nat): (r: Option<(nat, Captures)>)
    requires from <= |ms|
    decreases |ms| - from
    ensures r.Some? ==> from <= r.value.0 < |ms| && ms[r.value.0] == Some(r.value.1)
  {
    if from == |ms| then None
    else
      match ms[from]
      case Some(c) => Some((from, c))
      case None => FirstSome(ms, from + 1)
  }

  /** A match at index `q` means the first one found is at `q` or before it. */
  lemma {:induction false} FirstSomeNotAfter(ms: seq<Option<Captures>>, from: nat, q: nat)
    requires from <= q < |ms| && ms[q].Some?
    decreases q - from
    ensures FirstSome(ms, from).Some? && FirstSome(ms, from).value.0 <= q
  {
    if ms[from].None? {
      FirstSomeNotAfter(ms, from + 1, q);
    }
  }

  /**
   * `Regexp#match`: the first start position, from `from` on, where the
   * pattern matches, with its captures.
   */
  function FirstMatch(s: string, from: nat): (r: Option<(nat, Captures)>)
    requires from <= |s|
    ensures r.Some? ==> from <= r.value.0 <= |s| && MatchAt(s, r.value.0) == Some(r.value.1)
  {
    FirstSome(Attempts(s), from)
  }

  /**
   * A match at any position `q` from `from` on means the search finds one,
   * at `q` or before it: the match found is the leftmost one.
   */
  lemma FirstMatchNotAfter(s: string, from: nat, q: nat)
    requires from <= q <= |s| && MatchAt(s, q).Some?
    ensures FirstMatch(s, from).Some? && FirstMatch(s, from).value.0 <= q
  {
    FirstSomeNotAfter(Attempts(s), from, q);
  }

  /** `hours.to_i * 60 * 60 + minutes.to_i * 60 + seconds.to_i`. */
  function SecondsAgo(c: Captures): (r: int)
    ensures WellFormed(c) ==> r >= 0
  {
    ToI(c.hours) * 60 * 60 + ToI(c.minutes) * 60 + ToI(Some(c.seconds))
  }

  /** The `last_update` a detail load stores, given `lastupd` and the current time. */
  function LastUpdate(lastupd: Option<string>, now: int): (r: int)
    ensures lastupd.None? ==> r == -1
    ensures r == -1 || r <= now
  {
    match lastupd
    case None => -1
    case Some(t) =>
      match FirstMatch(t, 0)
      case None => -1
      case Some((_, c)) => now - SecondsAgo(c)
  }

  // ---------------------------------------------------------------------
  // Slicing helpers

  lemma SplitSlice(s: string, p: nat, a: string, b: string)
    requires p + |a| + |b| <= |s| && s[p..p + |a| + |b|] == a + b
    ensures WordAt(s, p, a) && WordAt(s, p + |a|, b)
  {
    assert s[p..p + |a|] == (a + b)[..|a|];
    assert s[p + |a|..p + |a| + |b|] == (a + b)[|a|..];
  }

  lemma JoinSlice(s: string, p: nat, a: string, b: string)
    requires WordAt(s, p, a) && WordAt(s, p + |a|, b)
    ensures p + |a + b| <= |s| && s[p..p + |a + b|] == a + b
  {
    assert s[p..p + |a| + |b|] == s[p..p + |a|] + s[p + |a|..p + |a| + |b|];
  }

  /** The digits `d` followed by a space at `p` are exactly what `\d+` takes there. */
  lemma NumberAtOf(s: string, p: nat, d: string)
    requires IsNumber(d) && WordAt(s, p, d) && p + |d| < |s| && s[p + |d|] == ' '
    ensures NumberAt(s, p) == Some(d)
  {
    DigitsEndOf(s, p, p + |d|);
  }

  /** The digit run from `p` ends at the first non-digit `e` after a run of digits. */
  lemma {:induction false} DigitsEndOf(s: string, p: nat, e: nat)
    requires p <= e < |s| && !IsDigit(s[e])
    requires forall k :: p <= k < e ==> IsDigit(s[k])
    decreases e - p
    ensures DigitsEnd(s, p) == e
  {
    if p < e {
      DigitsEndOf(s, p + 1, e);
    }
  }

  /** The three literals differ in their second character. */
  lemma WordsExclusive(s: string, p: nat)
    ensures WordAt(s, p, HeureWord) ==> !WordAt(s, p, MinuteWord) && !WordAt(s, p, SecondesWord)
    ensures WordAt(s, p, MinuteWord) ==> !WordAt(s, p, SecondesWord)
  {
    if WordAt(s, p, HeureWord) {
      assert s[p + 1] == HeureWord[1];
    }
    if WordAt(s, p, MinuteWord) {
      assert s[p + 1] == MinuteWord[1];
    }
  }

  // ---------------------------------------------------------------------
  // Phrases of the grammar, built from and taken apart into their pieces

  lemma JoinSeconds(s: string, p: nat, sec: string)
    requires IsNumber(sec) && WordAt(s, p, sec) && WordAt(s, p + |sec|, SecondesWord)
    ensures PhraseAt(s, p, Captures(None, None, sec))
  {
    JoinSlice(s, p, sec, SecondesWord);
  }

  lemma JoinMinutes(s: string, p: nat, m: string, sec: string)
    requires IsNumber(m) && WordAt(s, p, m) && WordAt(s, p + |m|, MinuteWord)
    requires PhraseAt(s, p + |m| + |MinuteWord|, Captures(None, None, sec))
    ensures PhraseAt(s, p, Captures(None, Some(m), sec))
  {
    JoinSlice(s, p, m, MinuteWord);
    JoinSlice(s, p, m + MinuteWord, sec + SecondesWord);
  }

  lemma JoinHours(s: string, p: nat, h: string, m: string, sec: string)
    requires IsNumber(h) && WordAt(s, p, h) && WordAt(s, p + |h|, HeureWord)
    requires PhraseAt(s, p + |h| + |HeureWord|, Captures(None, Some(m), sec))
    ensures PhraseAt(s, p, Captures(Some(h), Some(m), sec))
  {
    JoinSlice(s, p, h, HeureWord);
    JoinSlice(s, p, h + HeureWord, Render(Captures(None, Some(m), sec)));
  }

  lemma SplitSeconds(s: string, p: nat, sec: string)
    requires PhraseAt(s, p, Captures(None, None, sec))
    ensures IsNumber(sec) && WordAt(s, p, sec) && WordAt(s, p + |sec|, SecondesWord)
    ensures p + |sec| < |s| && s[p + |sec|] == ' '
  {
    SplitSlice(s, p, sec, SecondesWord);
  }

  lemma SplitMinutes(s: string, p: nat, m: string, sec: string)
    requires PhraseAt(s, p, Captures(None, Some(m), sec))
    ensures IsNumber(m) && WordAt(s, p, m) && WordAt(s, p + |m|, MinuteWord)
    ensures p + |m| < |s| && s[p + |m|] == ' '
    ensures PhraseAt(s, p + |m| + |MinuteWord|, Captures(None, None, sec))
  {
    SplitSlice(s, p, m + MinuteWord, sec + SecondesWord);
    SplitSlice(s, p, m, MinuteWord);
  }

  lemma SplitHours(s: string, p: nat, h: string, m: string, sec: string)
    requires PhraseAt(s, p, Captures(Some(h), Some(m), sec))
    ensures IsNumber(h) && WordAt(s, p, h) && WordAt(s, p + |h|, HeureWord)
    ensures p + |h| < |s| && s[p + |h|] == ' '
    ensures PhraseAt(s, p + |h| + |HeureWord|, Captures(None, Some(m), sec))
  {
    SplitSlice(s, p, h + HeureWord, Render(Captures(None, Some(m), sec)));
    SplitSlice(s, p, h, HeureWord);
  }

  // ---------------------------------------------------------------------
  // The matcher agrees with the phrase grammar

  lemma MatchSecondsSound(s: string, p: nat)
    requires p <= |s| && MatchSeconds(s, p).Some?
    ensures PhraseAt(s, p, MatchSeconds(s, p).value)
  {
    NumberAtFacts(s, p);
    JoinSeconds(s, p, NumberAt(s, p).value);
  }

  lemma MatchMinutesSound(s: string, p: nat)
    requires p <= |s| && MatchMinutes(s, p).Some?
    ensures PhraseAt(s, p, MatchMinutes(s, p).value)
  {
    NumberAtFacts(s, p);
    var m := NumberAt(s, p).value;
    MatchSecondsSound(s, p + |m| + |MinuteWord|);
    JoinMinutes(s, p, m, MatchMinutes(s, p).value.seconds);
  }

  lemma MatchHoursSound(s: string, p: nat)
    requires p <= |s| && MatchHours(s, p).Some?
    ensures PhraseAt(s, p, MatchHours(s, p).value)
  {
    NumberAtFacts(s, p);
    var h := NumberAt(s, p).value;
    var c := MatchHours(s, p).value;
    MatchMinutesSound(s, p + |h| + |HeureWord|);
    JoinHours(s, p, h, c.minutes.value, c.seconds);
  }

  /** Whatever the matcher reports at `p` is a phrase of the grammar at `p`. */
  lemma MatchAtSound(s: string, p: nat)
    requires p <= |s| && MatchAt(s, p).Some?
    ensures PhraseAt(s, p, MatchAt(s, p).value)
  {
    if MatchHours(s, p).Some? {
      MatchHoursSound(s, p);
    } else if MatchMinutes(s, p).Some? {
      MatchMinutesSound(s, p);
    } else {
      MatchSecondsSound(s, p);
    }
  }

  lemma MatchSecondsComplete(s: string, p: nat, sec: string)
    requires PhraseAt(s, p, Captures(None, None, sec))
    ensures MatchSeconds(s, p) == Some(Captures(None, None, sec))
  {
    SplitSeconds(s, p, sec);
    NumberAtOf(s, p, sec);
  }

  /** Each alternative fails when the word after its first number is not its own. */
  lemma SecondsFailAt(s: string, p: nat, d: string)
    requires p <= |s| && NumberAt(s, p) == Some(d) && !WordAt(s, p + |d|, SecondesWord)
    ensures MatchSeconds(s, p).None?
  {
  }

  lemma MinutesFailAt(s: string, p: nat, d: string)
    requires p <= |s| && NumberAt(s, p) == Some(d) && !WordAt(s, p + |d|, MinuteWord)
    ensures MatchMinutes(s, p).None?
  {
  }

  lemma HoursFailAt(s: string, p: nat, d: string)
    requires p <= |s| && NumberAt(s, p) == Some(d)
    requires WordAt(s, p + |d|, HeureWord) ==> MatchMinutes(s, p + |d| + |HeureWord|).None?
    ensures MatchHours(s, p).None?
  {
  }

  /** With seconds only at `p`, the longer alternatives fail there. */
  lemma SecondsOnlyAt(s: string, p: nat, sec: string)
    requires p <= |s| && NumberAt(s, p) == Some(sec) && WordAt(s, p + |sec|, SecondesWord)
    ensures MatchMinutes(s, p).None? && MatchHours(s, p).None?
  {
    WordsExclusive(s, p + |sec|);
    MinutesFailAt(s, p, sec);
    HoursFailAt(s, p, sec);
  }

  lemma MatchMinutesComplete(s: string, p: nat, m: string, sec: string)
    requires PhraseAt(s, p, Captures(None, Some(m), sec))
    ensures MatchMinutes(s, p) == Some(Captures(None, Some(m), sec))
  {
    SplitMinutes(s, p, m, sec);
    NumberAtOf(s, p, m);
    MatchSecondsComplete(s, p + |m| + |MinuteWord|, sec);
    MinutesFromParts(s, p, m, sec);
  }

  lemma MinutesFromParts(s: string, p: nat, m: string, sec: string)
    requires p <= |s| && NumberAt(s, p) == Some(m) && WordAt(s, p + |m|, MinuteWord)
    requires MatchSeconds(s, p + |m| + |MinuteWord|) == Some(Captures(None, None, sec))
    ensures MatchMinutes(s, p) == Some(Captures(None, Some(m), sec))
  {
  }

  lemma HoursFromParts(s: string, p: nat, h: string, m: string, sec: string)
    requires p <= |s| && NumberAt(s, p) == Some(h) && WordAt(s, p + |h|, HeureWord)
    requires MatchMinutes(s, p + |h| + |HeureWord|) == Some(Captures(None, Some(m), sec))
    ensures MatchHours(s, p) == Some(Captures(Some(h), Some(m), sec))
  {
  }

  /** With minutes and seconds at `p`, the hours alternative fails there. */
  lemma MinutesOnlyAt(s: string, p: nat, m: string, sec: string)
    requires PhraseAt(s, p, Captures(None, Some(m), sec))
    ensures MatchHours(s, p).None?
  {
    SplitMinutes(s, p, m, sec);
    NumberAtOf(s, p, m);
    WordsExclusive(s, p + |m|);
    HoursFailAt(s, p, m);
  }

  lemma MatchHoursComplete(s: string, p: nat, h: string, m: string, sec: string)
    requires IsNumber(h) && WordAt(s, p, h) && WordAt(s, p + |h|, HeureWord)
    requires p + |h| < |s| && s[p + |h|] == ' '
    requires PhraseAt(s, p + |h| + |HeureWord|, Captures(None, Some(m), sec))
    ensures MatchHours(s, p) == Some(Captures(Some(h), Some(m), sec))
  {
    NumberAtOf(s, p, h);
    MatchMinutesComplete(s, p + |h| + |HeureWord|, m, sec);
    HoursFromParts(s, p, h, m, sec);
  }

  /** Wherever a phrase of the grammar occurs, the matcher finds exactly it. */
  lemma MatchAtComplete(s: string, p: nat, c: Captures)
    requires PhraseAt(s, p, c)
    ensures p <= |s| && MatchAt(s, p) == Some(c)
  {
    if c.hours.Some? {
      SplitHours(s, p, c.hours.value, c.minutes.value, c.seconds);
      MatchHoursComplete(s, p, c.hours.value, c.minutes.value, c.seconds);
    } else if c.minutes.Some? {
      MinutesOnlyAt(s, p, c.minutes.value, c.seconds);
      MatchMinutesComplete(s, p, c.minutes.value, c.seconds);
    } else {
      MatchSecondsComplete(s, p, c.seconds);
      SplitSeconds(s, p, c.seconds);
      SecondsOnlyAt(s, p, c.seconds);
    }
  }

  // ---------------------------------------------------------------------
  // What `last_update` is

  /** The duration of a match: absent hours or minutes count as 0. */
  lemma SecondsAgoOf(c: Captures)
    requires WellFormed(c)
    ensures var h := if c.hours.Some? then DigitsValue(c.hours.value) else 0;
      var m := if c.minutes.Some? then DigitsValue(c.minutes.value) else 0;
      SecondsAgo(c) == h * 3600 + m * 60 + DigitsValue(c.seconds)
    ensures SecondsAgo(c) >= 0
  {
    if c.hours.Some? { ToIOfDigits(c.hours.value); }
    if c.minutes.Some? { ToIOfDigits(c.minutes.value); }
    ToIOfDigits(c.seconds);
  }

  /** The text holds a match exactly when it holds a phrase of the grammar. */
  lemma FirstMatchFindsPhrase(t: string)
    ensures FirstMatch(t, 0).Some? <==> exists q, c :: PhraseAt(t, q, c)
  {
    match FirstMatch(t, 0)
    case Some((q, c)) =>
      MatchAtSound(t, q);
    case None =>
      forall q, c | PhraseAt(t, q, c) ensures false {
        MatchAtComplete(t, q, c);
        FirstMatchNotAfter(t, 0, q);
      }
  }

  /** The search stops at the leftmost phrase and reports its captures. */
  lemma FirstMatchOfLeftmostPhrase(t: string, q: nat, c: Captures)
    requires PhraseAt(t, q, c)
    requires forall q': nat, c' :: q' < q ==> !PhraseAt(t, q', c')
    ensures FirstMatch(t, 0) == Some((q, c))
  {
    MatchAtComplete(t, q, c);
    FirstMatchNotAfter(t, 0, q);
    var (q0, c0) := FirstMatch(t, 0).value;
    MatchAtSound(t, q0);
    assert q <= q0 by { assert PhraseAt(t, q0, c0); }
  }

  /**
   * With a phrase at `q` and none starting earlier, `last_update` is `now`
   * minus that phrase's duration, never later than `now`.
   */
  lemma LastUpdateOfLeftmostPhrase(t: string, now: int, q: nat, c: Captures)
    requires PhraseAt(t, q, c)
    requires forall q': nat, c' :: q' < q ==> !PhraseAt(t, q', c')
    ensures LastUpdate(Some(t), now) == now - SecondsAgo(c)
    ensures LastUpdate(Some(t), now) <= now
  {
    FirstMatchOfLeftmostPhrase(t, q, c);
    SecondsAgoOf(c);
  }

  /** A missing `lastupd`, or one holding no phrase, gives the sentinel -1. */
  lemma LastUpdateSentinel(lastupd: Option<string>, now: int)
    requires lastupd.Some? ==> forall q, c :: !PhraseAt(lastupd.value, q, c)
    ensures LastUpdate(lastupd, now) == -1
  {
    if lastupd.Some? {
      FirstMatchFindsPhrase(lastupd.value);
    }
  }

  /** Whenever `lastupd` matches, the timestamp is at most `now`. */
  lemma LastUpdateNotAfterNow(lastupd: Option<string>, now: int)
    requires lastupd.Some? && FirstMatch(lastupd.value, 0).Some?
    ensures LastUpdate(lastupd, now) <= now
  {
    var (q, c) := FirstMatch(lastupd.value, 0).value;
    MatchAtSound(lastupd.value, q);
    SecondsAgoOf(c);
  }

  /** `\d+` cannot start where there is no digit, so nothing matches there. */
  lemma NoMatchWithoutDigit(s: string, p: nat)
    requires p <= |s| && (p == |s| || !IsDigit(s[p]))
    ensures MatchAt(s, p).None?
  {
  }

  /** The feed's "2 secondes" is two seconds ago. */
  lemma LastUpdateSecondsOnly(now: int)
    ensures LastUpdate(Some("2 secondes"), now) == now - 2
  {
    var c := Captures(None, None, "2");
    assert Render(c) == "2 secondes";
    LastUpdateOfLeftmostPhrase("2 secondes", now, 0, c);
    SecondsAgoOf(c);
  }

  /** The feed's "6 heure(s) 4 minute(s) 2 secondes" is 21842 seconds ago. */
  lemma LastUpdateFullPhrase(now: int)
    ensures LastUpdate(Some("6 heure(s) 4 minute(s) 2 secondes"), now) == now - 21842
  {
    var c := Captures(Some("6"), Some("4"), "2");
    assert Render(c) == "6 heure(s) 4 minute(s) 2 secondes";
    LastUpdateOfLeftmostPhrase("6 heure(s) 4 minute(s) 2 secondes", now, 0, c);
    SecondsAgoOf(c);
  }

  /** `t` is an hours count, " heure(s) ", then a seconds phrase, and nothing more. */
  ghost predicate HoursThenSeconds(t: string, h: string, sec: string) {
    && IsNumber(h) && IsNumber(sec)
    && |t| == |h| + |HeureWord| + |sec| + |SecondesWord|
    && WordAt(t, 0, h) && WordAt(t, |h|, HeureWord)
    && WordAt(t, |h| + |HeureWord|, sec) && WordAt(t, |h| + |HeureWord| + |sec|, SecondesWord)
  }

  lemma HoursThenSecondsPieces(h: string, sec: string)
    requires IsNumber(h) && IsNumber(sec)
    ensures HoursThenSeconds(h + HeureWord + sec + SecondesWord, h, sec)
  {
    var t := h + HeureWord + sec + SecondesWord;
    assert t[0..|h|] == h;
    assert t[|h|..|h| + |HeureWord|] == HeureWord;
    assert t[|h| + |HeureWord|..|h| + |HeureWord| + |sec|] == sec;
    assert t[|h| + |HeureWord| + |sec|..] == SecondesWord;
  }

  /** Inside the hours count the pattern cannot match: no minutes count follows. */
  lemma NoMatchInHoursCount(t: string, h: string, sec: string, q: nat)
    requires HoursThenSeconds(t, h, sec) && q < |h|
    ensures MatchAt(t, q).None?
  {
    var run := h[q..];
    assert t[q..q + |run|] == t[0..|h|][q..];
    NumberAtOf(t, q, run);
    WordsExclusive(t, |h|);
    SecondsFailAt(t, q, run);
    MinutesFailAt(t, q, run);
    var p := |h| + |HeureWord|;
    NumberAtOf(t, p, sec);
    WordsExclusive(t, p + |sec|);
    MinutesFailAt(t, p, sec);
    HoursFailAt(t, q, run);
  }

  /** The word " heure(s) " holds no digit, so nothing matches inside it. */
  lemma NoMatchInHeureWord(t: string, h: string, sec: string, q: nat)
    requires HoursThenSeconds(t, h, sec) && |h| <= q < |h| + |HeureWord|
    ensures MatchAt(t, q).None?
  {
    assert t[q] == t[|h|..|h| + |HeureWord|][q - |h|] == HeureWord[q - |h|];
    NoMatchWithoutDigit(t, q);
  }

  lemma NoPhraseBeforeSeconds(t: string, h: string, sec: string, q: nat, c: Captures)
    requires HoursThenSeconds(t, h, sec) && q < |h| + |HeureWord|
    ensures !PhraseAt(t, q, c)
  {
    if PhraseAt(t, q, c) {
      MatchAtComplete(t, q, c);
      if q < |h| {
        NoMatchInHoursCount(t, h, sec, q);
      } else {
        NoMatchInHeureWord(t, h, sec, q);
      }
    }
  }

  /**
   * An hours count takes no part unless a minutes count follows it: in
   * "H heure(s) S secondes" only "S secondes" matches.
   */
  lemma LastUpdateHoursWithoutMinutes(h: string, sec: string, now: int)
    requires IsNumber(h) && IsNumber(sec)
    ensures LastUpdate(Some(h + HeureWord + sec + SecondesWord), now) == now - DigitsValue(sec)
  {
    var t := h + HeureWord + sec + SecondesWord;
    var p := |h| + |HeureWord|;
    var c := Captures(None, None, sec);
    HoursThenSecondsPieces(h, sec);
    JoinSeconds(t, p, sec);
    forall q': nat, c' | q' < p ensures !PhraseAt(t, q', c') {
      NoPhraseBeforeSeconds(t, h, sec, q', c');
    }
    LastUpdateOfLeftmostPhrase(t, now, p, c);
    SecondsAgoOf(c);
  }

  /** "6 heure(s) 2 secondes" is two seconds ago. */
  lemma LastUpdateLoneHours(now: int)
    ensures LastUpdate(Some("6 heure(s) 2 secondes"), now) == now - 2
  {
    assert "6 heure(s) 2 secondes" == "6" + HeureWord + "2" + SecondesWord;
    LastUpdateHoursWithoutMinutes("6", "2", now);
  }
}
