/** Decimal text, and the Redis and deduplication keys built from it. */
module Text {
  import opened Wrappers

  function DigitChar(d: nat): char
    requires d < 10
  {
    "0123456789"[d]
  }

  function DigitValue(c: char): nat {
    if '0' <= c <= '9' then c as int - '0' as int else 0
  }

  predicate AllDigits(s: string) {
    forall i :: 0 <= i < |s| ==> '0' <= s[i] <= '9'
  }

  function Digits(n: nat): (s: string)
    ensures s != [] && AllDigits(s)
  {
    if n < 10 then [DigitChar(n)] else Digits(n / 10) + [DigitChar(n % 10)]
  }

  function ParseDigits(s: string): nat {
    if s == [] then 0 else 10 * ParseDigits(s[..|s| - 1]) + DigitValue(s[|s| - 1])
  }

  /** `strconv.Itoa`. */
  function Itoa(n: int): string {
    if n < 0 then "-" + Digits(-n) else Digits(n)
  }

  lemma {:induction false} ParsePrinted(n: nat)
    ensures ParseDigits(Digits(n)) == n
  {
    if n >= 10 {
      ParsePrinted(n / 10);
      assert Digits(n)[..|Digits(n)| - 1] == Digits(n / 10);
    } else {
      assert Digits(n)[..0] == [];
    }
  }

  lemma ItoaInjective(m: int, n: int)
    ensures Itoa(m) == Itoa(n) ==> m == n
  {
    ParsePrinted(if m < 0 then -m else m);
    ParsePrinted(if n < 0 then -n else n);
    if Itoa(m) == Itoa(n) {
      assert m < 0 <==> Itoa(m)[0] == '-';
      assert n < 0 <==> Itoa(n)[0] == '-';
      if m < 0 {
        assert Itoa(m)[1..] == Digits(-m) && Itoa(n)[1..] == Digits(-n);
      }
    }
  }

  lemma ItoaPlain(n: int, c: char)
    requires c != '-' && !('0' <= c <= '9')
    ensures c !in Itoa(n)
  {
    var s := Digits(if n < 0 then -n else n);
    assert forall i :: 0 <= i < |Itoa(n)| ==> Itoa(n)[i] != c;
  }

  /** Texts joined by a separator that the right parts do not contain split in one way only. */
  lemma SplitAtLast(a: string, b: string, a': string, b': string, c: char)
    requires c !in b && c !in b'
    requires a + [c] + b == a' + [c] + b'
    ensures a == a' && b == b'
  {
    var t := a + [c] + b;
    assert forall i :: |a| < i < |t| ==> t[i] == b[i - |a| - 1];
    assert forall i :: |a'| < i < |t| ==> t[i] == b'[i - |a'| - 1];
    assert t[|a|] == c && t[|a'|] == c;
    assert |a| == |a'|;
    assert a == t[..|a|] && a' == t[..|a'|];
    assert b == t[|a| + 1..] && b' == t[|a'| + 1..];
  }

  // --- Keys -----------------------------------------------------------------

  datatype Period = Daily | Monthly

  function PeriodName(p: Period): string {
    match p
    case Daily => "daily"
    case Monthly => "monthly"
  }

  /** Two parts of a key, joined by a colon. */
  function Join(a: string, b: string): string {
    a + ":" + b
  }

  lemma JoinInjective(a: string, b: string, a': string, b': string)
    requires ':' !in b && ':' !in b'
    requires Join(a, b) == Join(a', b')
    ensures a == a' && b == b'
  {
    SplitAtLast(a, b, a', b', ':');
  }

  function EngineerKey(email: string, kind: string): string {
    Join("engineer:" + email, kind)
  }

  lemma EngineerKeyInjective(e: string, k: string, e': string, k': string)
    requires ':' !in k && ':' !in k'
    requires EngineerKey(e, k) == EngineerKey(e', k')
    ensures e == e' && k == k'
  {
    JoinInjective("engineer:" + e, k, "engineer:" + e', k');
    assert ("engineer:" + e)[9..] == e && ("engineer:" + e')[9..] == e';
  }

  datatype SignalType = Burst | ZScoreHigh | RhythmBreak
  datatype Severity = Info | Warn | Critical
  datatype CounterKind = CostToday | CostMonth | TokensToday

  function SignalName(s: SignalType): string {
    match s
    case Burst => "burst"
    case ZScoreHigh => "spend_zscore_high"
    case RhythmBreak => "rhythm_break"
  }

  function SeverityName(s: Severity): string {
    match s
    case Info => "info"
    case Warn => "warn"
    case Critical => "critical"
  }

  /** The Redis keys of the model, by their parts; `Render` is the text they have in Redis. */
  datatype RedisKey =
    | ThresholdFired(email: string, period: Period, pct: int)
    | SignalFired(email: string, signal: SignalType, severity: Severity, day: int)
    | Counter(email: string, kind: CounterKind)
    | BurstWindow(email: string)
    | LastOtel(email: string)
    | BaselineHash(email: string)

  function LastPart(k: RedisKey): string {
    match k
    case ThresholdFired(_, _, pct) => Itoa(pct)
    case SignalFired(_, _, _, day) => Itoa(day)
    case Counter(_, kind) => if kind.CostMonth? then "month" else "today"
    case BurstWindow(_) => "burst_window"
    case LastOtel(_) => "last_otel_at"
    case BaselineHash(_) => "baseline"
  }

  function FrontPart(k: RedisKey): string {
    match k
    case ThresholdFired(email, period, _) => Join(EngineerKey(email, "threshold_fired"), PeriodName(period))
    case SignalFired(email, signal, severity, _) =>
      Join(Join(EngineerKey(email, "signal_fired"), SignalName(signal)), SeverityName(severity))
    case Counter(email, kind) => EngineerKey(email, if kind.TokensToday? then "tokens" else "cost")
    case BurstWindow(email) => "engineer:" + email
    case LastOtel(email) => "engineer:" + email
    case BaselineHash(email) => "engineer:" + email
  }

  /** The calendar date that ends a signal's key is written as its day number. */
  function Render(k: RedisKey): string {
    Join(FrontPart(k), LastPart(k))
  }

  /** The texts of the keys, part by part, as Redis shows them. */
  lemma KeyTexts(e: string, n: int)
    ensures Render(Counter(e, CostToday)) == "engineer:" + e + ":" + "cost" + ":" + "today"
    ensures Render(Counter(e, CostMonth)) == "engineer:" + e + ":" + "cost" + ":" + "month"
    ensures Render(Counter(e, TokensToday)) == "engineer:" + e + ":" + "tokens" + ":" + "today"
    ensures Render(LastOtel(e)) == "engineer:" + e + ":" + "last_otel_at"
    ensures Render(BurstWindow(e)) == "engineer:" + e + ":" + "burst_window"
    ensures Render(BaselineHash(e)) == "engineer:" + e + ":" + "baseline"
    ensures Render(ThresholdFired(e, Daily, n)) ==
            "engineer:" + e + ":" + "threshold_fired" + ":" + "daily" + ":" + Itoa(n)
    ensures Render(SignalFired(e, Burst, Warn, n)) ==
            "engineer:" + e + ":" + "signal_fired" + ":" + "burst" + ":" + "warn" + ":" + Itoa(n)
  {
  }

  lemma NamesInjective(s: SignalType, s': SignalType, v: Severity, v': Severity, p: Period, p': Period)
    ensures ':' !in SignalName(s) && ':' !in SeverityName(v) && ':' !in PeriodName(p)
    ensures SignalName(s) == SignalName(s') ==> s == s'
    ensures SeverityName(v) == SeverityName(v') ==> v == v'
    ensures PeriodName(p) == PeriodName(p') ==> p == p'
    ensures SeverityName(v) != PeriodName(p)
  {
    assert SignalName(Burst)[0] == 'b' && SignalName(ZScoreHigh)[0] == 's' && SignalName(RhythmBreak)[0] == 'r';
    assert SeverityName(Info)[0] == 'i' && SeverityName(Warn)[0] == 'w' && SeverityName(Critical)[0] == 'c';
    assert PeriodName(Daily)[0] == 'd' && PeriodName(Monthly)[0] == 'm';
  }

  lemma LastParts(k: RedisKey, k': RedisKey)
    ensures ':' !in LastPart(k)
    ensures LastPart(k) == LastPart(k') ==> (k.Counter? <==> k'.Counter?) && (k.BurstWindow? <==> k'.BurstWindow?)
    ensures LastPart(k) == LastPart(k') ==> (k.LastOtel? <==> k'.LastOtel?) && (k.BaselineHash? <==> k'.BaselineHash?)
    ensures k.Counter? && k'.Counter? && LastPart(k) == LastPart(k') ==> (k.kind.CostMonth? <==> k'.kind.CostMonth?)
    ensures k.ThresholdFired? && k'.ThresholdFired? && LastPart(k) == LastPart(k') ==> k.pct == k'.pct
    ensures k.SignalFired? && k'.SignalFired? && LastPart(k) == LastPart(k') ==> k.day == k'.day
  {
    var n := if k.ThresholdFired? then k.pct else if k.SignalFired? then k.day else 0;
    var n' := if k'.ThresholdFired? then k'.pct else if k'.SignalFired? then k'.day else 0;
    LastPartPlain(k);
    LastPartPlain(k');
    ItoaInjective(n, n');
    if LastPart(k) == LastPart(k') && !k.ThresholdFired? && !k.SignalFired? && !k'.ThresholdFired? && !k'.SignalFired? {
      NamedParts(k, k');
    }
  }

  /** A number holds neither a colon nor any of the letters that the named parts have second. */
  lemma LastPartPlain(k: RedisKey)
    ensures ':' !in LastPart(k)
    ensures if k.ThresholdFired? || k.SignalFired? then forall c :: c in ['o', 'u', 'a'] ==> c !in LastPart(k)
            else LastPart(k)[1] in ['o', 'u', 'a']
  {
    if k.ThresholdFired? || k.SignalFired? {
      var n := if k.ThresholdFired? then k.pct else k.day;
      ItoaPlain(n, ':');
      ItoaPlain(n, 'o');
      ItoaPlain(n, 'u');
      ItoaPlain(n, 'a');
    } else {
      assert LastPart(k)[1] == if k.Counter? then 'o' else if k.BurstWindow? then 'u' else 'a';
    }
  }

  lemma NamedParts(k: RedisKey, k': RedisKey)
    requires !k.ThresholdFired? && !k.SignalFired? && !k'.ThresholdFired? && !k'.SignalFired?
    requires LastPart(k) == LastPart(k')
    ensures (k.Counter? <==> k'.Counter?) && (k.BurstWindow? <==> k'.BurstWindow?)
    ensures (k.LastOtel? <==> k'.LastOtel?) && (k.BaselineHash? <==> k'.BaselineHash?)
    ensures k.Counter? ==> (k.kind.CostMonth? <==> k'.kind.CostMonth?)
  {
    assert forall x | x in [k, k'] ::
        LastPart(x)[..2] == if x.Counter? then (if x.kind.CostMonth? then "mo" else "to")
                            else if x.BurstWindow? then "bu" else if x.LastOtel? then "la" else "ba";
    assert "mo"[0] == 'm' && "to"[0] == 't' && "bu"[1] == 'u' && "la"[0] == 'l' && "ba"[1] == 'a';
    assert "mo"[1] == 'o' && "to"[1] == 'o' && "bu"[0] == 'b' && "la"[1] == 'a' && "ba"[0] == 'b';
  }

  /** No two keys, of one kind or of different kinds, are the same text, whatever the e-mail addresses contain. */
  lemma RenderInjective(k: RedisKey, k': RedisKey)
    requires Render(k) == Render(k')
    ensures k == k'
  {
    LastParts(k, k');
    LastParts(k', k);
    JoinInjective(FrontPart(k), LastPart(k), FrontPart(k'), LastPart(k'));
    match k
    case Counter(e, kind) =>
      assert "tokens"[0] == 't' && "cost"[0] == 'c';
      EngineerKeyInjective(e, if kind.TokensToday? then "tokens" else "cost",
                           k'.email, if k'.kind.TokensToday? then "tokens" else "cost");
    case ThresholdFired(_, _, _) => FiredKeysApart(k, k');
    case SignalFired(_, _, _, _) => FiredKeysApart(k, k');
    case _ =>
      assert ("engineer:" + k.email)[9..] == k.email && ("engineer:" + k'.email)[9..] == k'.email;
  }

  lemma FiredKeysApart(k: RedisKey, k': RedisKey)
    requires (k.ThresholdFired? || k.SignalFired?) && (k'.ThresholdFired? || k'.SignalFired?)
    requires FrontPart(k) == FrontPart(k')
    ensures k.ThresholdFired? && k'.ThresholdFired? ==> k.email == k'.email && k.period == k'.period
    ensures k.SignalFired? && k'.SignalFired? ==>
        k.email == k'.email && k.signal == k'.signal && k.severity == k'.severity
    ensures k.ThresholdFired? <==> k'.ThresholdFired?
  {
    var p, p' := if k.ThresholdFired? then k.period else Daily, if k'.ThresholdFired? then k'.period else Daily;
    var v, v' := if k.SignalFired? then k.severity else Info, if k'.SignalFired? then k'.severity else Info;
    var s, s' := if k.SignalFired? then k.signal else Burst, if k'.SignalFired? then k'.signal else Burst;
    NamesInjective(s, s', v, v', p, p');
    NamesInjective(s', s, v', v, p', p);
    NamesInjective(s, s', v, v', p', p);
    NamesInjective(s', s, v', v, p, p');
    var t, t' := EngineerKey(k.email, "threshold_fired"), EngineerKey(k'.email, "threshold_fired");
    var u, u' := EngineerKey(k.email, "signal_fired"), EngineerKey(k'.email, "signal_fired");
    JoinInjective(if k.ThresholdFired? then t else Join(u, SignalName(s)),
                  if k.ThresholdFired? then PeriodName(p) else SeverityName(v),
                  if k'.ThresholdFired? then t' else Join(u', SignalName(s')),
                  if k'.ThresholdFired? then PeriodName(p') else SeverityName(v'));
    if k.ThresholdFired? && k'.ThresholdFired? {
      EngineerKeyInjective(k.email, "threshold_fired", k'.email, "threshold_fired");
    }
    if k.SignalFired? && k'.SignalFired? {
      JoinInjective(u, SignalName(s), u', SignalName(s'));
      EngineerKeyInjective(k.email, "signal_fired", k'.email, "signal_fired");
    }
  }

  lemma KeysApart()
    ensures Injective(Render)
  {
    forall k: RedisKey, k': RedisKey | Render(k) == Render(k')
      ensures k == k'
    {
      RenderInjective(k, k');
    }
  }

  /** What Redis holds for a store whose keys are given by their parts. */
  ghost function InRedis<V>(store: map<RedisKey, V>): map<string, V> {
    KeysApart();
    Renamed(store, Render)
  }

  /** Reading and setting a key by its parts is reading and setting its text. */
  lemma InRedisFollows<V>(store: map<RedisKey, V>, k: RedisKey, v: V)
    ensures Render(k) in InRedis(store) <==> k in store
    ensures k in store ==> InRedis(store)[Render(k)] == store[k]
    ensures InRedis(store[k := v]) == InRedis(store)[Render(k) := v]
  {
    KeysApart();
    RenamedFollows(store, Render, k, v);
  }

  /** The key under which the revert detector files a pull request. */
  function PullKey(repo: string, number: int): string {
    repo + "#" + Itoa(number)
  }

  lemma PullKeyInjective(r: string, n: int, r': string, n': int)
    requires PullKey(r, n) == PullKey(r', n')
    ensures r == r' && n == n'
  {
    ItoaPlain(n, '#');
    ItoaPlain(n', '#');
    SplitAtLast(r, Itoa(n), r', Itoa(n'), '#');
    ItoaInjective(n, n');
  }

  // --- Members of the burst window -------------------------------------------

  /** `f` in exactly `w` digits. */
  function Fixed(f: nat, w: nat): (s: string)
    ensures |s| == w && AllDigits(s)
  {
    if w == 0 then "" else Fixed(f / 10, w - 1) + [DigitChar(f % 10)]
  }

  function Pow10(w: nat): nat {
    if w == 0 then 1 else 10 * Pow10(w - 1)
  }

  lemma ParseSnoc(s: string, d: nat)
    requires d < 10
    ensures ParseDigits(s + [DigitChar(d)]) == 10 * ParseDigits(s) + d
  {
    assert (s + [DigitChar(d)])[..|s|] == s;
  }

  lemma {:induction false} ParseFixed(f: nat, w: nat)
    requires f < Pow10(w)
    ensures ParseDigits(Fixed(f, w)) == f
  {
    if w > 0 {
      ParseFixed(f / 10, w - 1);
      ParseSnoc(Fixed(f / 10, w - 1), f % 10);
    }
  }

  /** An amount of micro-dollars as `%f` prints it: six decimals. */
  function PrintMicros(c: nat): string {
    Digits(c / 1_000_000) + "." + Fixed(c % 1_000_000, 6)
  }

  /** `strconv.ParseFloat` on text with six decimals; anything else is a parse error here. */
  function ParseMicros(s: string): Option<nat> {
    if |s| >= 8 && AllDigits(s[..|s| - 7]) && s[|s| - 7] == '.' && AllDigits(s[|s| - 6..])
    then Some(1_000_000 * ParseDigits(s[..|s| - 7]) + ParseDigits(s[|s| - 6..]))
    else None
  }

  lemma ParsePrintedMicros(c: nat)
    ensures ParseMicros(PrintMicros(c)) == Some(c)
  {
    var s := PrintMicros(c);
    var whole, frac := Digits(c / 1_000_000), Fixed(c % 1_000_000, 6);
    assert s[..|s| - 7] == whole && s[|s| - 6..] == frac;
    ParsePrinted(c / 1_000_000);
    assert Pow10(6) == 1_000_000;
    ParseFixed(c % 1_000_000, 6);
  }

  lemma PrintMicrosPlain(c: nat)
    ensures ':' !in PrintMicros(c)
  {
  }

  function Member(at: int, cost: nat): string {
    Itoa(at) + ":" + PrintMicros(cost)
  }

  lemma MemberInjective(at: int, cost: nat, at': int, cost': nat)
    requires Member(at, cost) == Member(at', cost')
    ensures at == at' && cost == cost'
  {
    PrintMicrosPlain(cost);
    PrintMicrosPlain(cost');
    SplitAtLast(Itoa(at), PrintMicros(cost), Itoa(at'), PrintMicros(cost'), ':');
    ItoaInjective(at, at');
    ParsePrintedMicros(cost);
    ParsePrintedMicros(cost');
  }
}
