/** The failed-check log, which keeps a bounded number of results other than OK.
    Recording takes the lock twice, and anything may happen between. */
module FailedChecks {
  import opened Text
  import opened Redaction

  // ---- what is kept of a result -----------------------------------------------------------

  datatype Line = Line(message: string, perf: seq<string>)

  datatype Response = Response(command: string, result: int, lines: seq<Line>, arguments: seq<string>, data: string)

  datatype Item = Item(timestamp: int, subject: string, depth: nat, response: Response)

  datatype Entry = Entry(index: nat, item: Item)

  datatype Options = Options(enabled: bool, maxEntries: nat, recordArguments: bool, statuses: set<int>)

  const DEFAULT_STATUSES: set<int> := {1, 2, 3}
  const DEFAULT_OPTIONS := Options(true, 50, false, DEFAULT_STATUSES)
  const MAX_MAX_ENTRIES: nat := 10000
  const MAX_LINES: nat := 100
  const MAX_LINE_LENGTH: nat := 4096
  const MAX_PERF_PER_LINE: nat := 100
  const MAX_ARGUMENTS: nat := 100
  const MAX_ARGUMENT_LENGTH: nat := 1024
  const MAX_SUBJECT_LENGTH: nat := 256

  function Clip(text: string, length: nat): string {
    if |text| <= length then text
    else if length <= 3 then text[..length]
    else text[..length - 3] + "..."
  }

  function First<T>(s: seq<T>, n: nat): seq<T> {
    if |s| <= n then s else s[..n]
  }

  /** A message clipped, then redacted; its performance data cut to the cap. */
  function CleanLine(line: Line): Line {
    Line(Redact(Clip(line.message, MAX_LINE_LENGTH)), First(line.perf, MAX_PERF_PER_LINE))
  }

  function CleanLines(lines: seq<Line>): (r: seq<Line>)
    ensures |r| == |lines|
    ensures forall i :: 0 <= i < |r| ==> r[i] == CleanLine(lines[i])
  {
    seq(|lines|, i requires 0 <= i < |lines| => CleanLine(lines[i]))
  }

  function ClipAll(arguments: seq<string>): (r: seq<string>)
    ensures |r| == |arguments|
  {
    seq(|arguments|, i requires 0 <= i < |arguments| => Clip(arguments[i], MAX_ARGUMENT_LENGTH))
  }

  /** One argument, `next` telling whether the one before it asks for its value to be hidden. */
  function RedactArgument(argument: string, next: bool): string {
    var eq := IndexFrom(argument, '=', 0);
    if next then "***"
    else if eq < |argument| && Sensitive(argument[..eq]) then argument[..eq + 1] + "***"
    else argument
  }

  predicate HidesNext(argument: string, next: bool) {
    !next && IndexFrom(argument, '=', 0) == |argument| && Sensitive(argument)
  }

  /** Redact `key=value` arguments, and the argument after a bare sensitive one. */
  function RedactArguments(arguments: seq<string>, next: bool): (r: seq<string>)
    ensures |r| == |arguments|
    decreases arguments
  {
    if arguments == [] then []
    else [RedactArgument(arguments[0], next)] + RedactArguments(arguments[1..], HidesNext(arguments[0], next))
  }

  lemma RedactArgumentsStep(arguments: seq<string>, i: nat, next: bool)
    requires i < |arguments|
    ensures RedactArguments(arguments[i..], next) ==
            [RedactArgument(arguments[i], next)] + RedactArguments(arguments[i + 1..], HidesNext(arguments[i], next))
  {
    hide RedactArgument, HidesNext;
    assert arguments[i..][1..] == arguments[i + 1..];
  }

  method RedactArgumentList(arguments: seq<string>) returns (out: seq<string>)
    ensures out == RedactArguments(arguments, false)
  {
    hide Sensitive, RedactArguments;
    out := [];
    var next := false;
    assert arguments[0..] == arguments;
    for i := 0 to |arguments|
      invariant out + RedactArguments(arguments[i..], next) == RedactArguments(arguments, false)
    {
      RedactArgumentsStep(arguments, i, next);
      var argument := arguments[i];
      if next {
        out, next := out + ["***"], false;
        continue;
      }
      var eq := IndexFrom(argument, '=', 0);
      if eq == |argument| {
        out, next := out + [argument], Sensitive(argument);
        continue;
      }
      if Sensitive(argument[..eq]) { argument := argument[..eq + 1] + "***"; }
      out := out + [argument];
    }
  }

  /** The copy that is stored: caps applied, credentials and the opaque data out, arguments
      only when asked for. */
  function Sanitize(response: Response, arguments: Option<seq<string>>): Response {
    Response(
      response.command,
      response.result,
      CleanLines(First(response.lines, MAX_LINES)),
      if arguments.None? then [] else RedactArguments(ClipAll(First(arguments.value, MAX_ARGUMENTS)), false),
      "")
  }

  ghost predicate CleanAlready(line: Line) {
    Redact(line.message) == line.message && |line.perf| <= MAX_PERF_PER_LINE
  }

  ghost predicate Clean(r: Response) {
    && |r.lines| <= MAX_LINES && |r.arguments| <= MAX_ARGUMENTS && r.data == ""
    && (forall i :: 0 <= i < |r.lines| ==> CleanAlready(r.lines[i]))
    && RedactArguments(r.arguments, false) == r.arguments
  }

  lemma RedactArgumentAgain(argument: string, next: bool)
    ensures var r := RedactArgument(argument, next);
            RedactArgument(r, next) == r && HidesNext(r, next) == HidesNext(argument, next)
  {
    hide Sensitive;
    var eq := IndexFrom(argument, '=', 0);
    if !next && eq < |argument| && Sensitive(argument[..eq]) {
      var r := argument[..eq + 1] + "***";
      IndexFromUnique(r, '=', 0, eq);
      assert r[..eq] == argument[..eq] && r[..eq + 1] == argument[..eq + 1];
    }
  }

  lemma {:induction false} RedactArgumentsAgain(arguments: seq<string>, next: bool)
    ensures RedactArguments(RedactArguments(arguments, next), next) == RedactArguments(arguments, next)
    decreases |arguments|
  {
    hide RedactArgument, HidesNext;
    if arguments == [] {
    } else {
      var r := RedactArguments(arguments, next);
      var hides := HidesNext(arguments[0], next);
      RedactArgumentAgain(arguments[0], next);
      RedactArgumentsAgain(arguments[1..], hides);
      assert r[1..] == RedactArguments(arguments[1..], hides);
    }
  }

  /** A capped text: short ones stay; a long one keeps its beginning and says that it was cut. */
  lemma ClipIs(text: string, length: nat)
    requires length > 3
    ensures |text| <= length ==> Clip(text, length) == text
    ensures |text| > length ==> |Clip(text, length)| == length
    ensures |text| > length ==>
              Clip(text, length)[..length - 3] == text[..length - 3] && Clip(text, length)[length - 3..] == "..."
  {
  }

  /** An argument is the value of a bare sensitive one before it, which was not hidden itself. */
  predicate HiddenValue(arguments: seq<string>, i: nat)
    requires i < |arguments|
  {
    i > 0 && '=' !in arguments[i - 1] && Sensitive(arguments[i - 1]) && !HiddenValue(arguments, i - 1)
  }

  /** An argument is a pair with a sensitive key. */
  ghost predicate SecretPair(argument: string, key: string, value: string) {
    argument == key + "=" + value && '=' !in key && Sensitive(key)
  }

  /** What becomes of each argument: a value that stands alone is hidden, a pair keeps its key,
      and everything else stays as it is. */
  lemma {:induction false} RedactedAt(arguments: seq<string>, i: nat)
    requires i < |arguments|
    ensures var r := RedactArguments(arguments, false);
            && (HiddenValue(arguments, i) ==> r[i] == "***")
            && (forall key, value :: !HiddenValue(arguments, i) && SecretPair(arguments[i], key, value) ==>
                  r[i] == key + "=***")
            && (!HiddenValue(arguments, i) && (forall key, value :: !SecretPair(arguments[i], key, value)) ==>
                  r[i] == arguments[i])
  {
    RedactedFrom(arguments, 0, i, false);
    assert arguments[0..] == arguments;
    PairAt(arguments[i]);
  }

  lemma PairAt(argument: string)
    ensures forall key, value :: SecretPair(argument, key, value) ==> RedactArgument(argument, false) == key + "=***"
    ensures (forall key, value :: !SecretPair(argument, key, value)) ==> RedactArgument(argument, false) == argument
  {
    hide Sensitive;
    var eq := IndexFrom(argument, '=', 0);
    if eq < |argument| {
      assert argument == argument[..eq] + "=" + argument[eq + 1..];
      assert Sensitive(argument[..eq]) ==> SecretPair(argument, argument[..eq], argument[eq + 1..]);
    }
    forall key, value | SecretPair(argument, key, value)
      ensures RedactArgument(argument, false) == key + "=***"
    {
      IndexFromUnique(argument, '=', 0, |key|);
      assert argument[..|key|] == key && argument[..|key| + 1] == key + "=";
    }
  }

  lemma {:induction false} RedactedFrom(arguments: seq<string>, from: nat, i: nat, next: bool)
    requires from <= i < |arguments| && next == HiddenValue(arguments, from)
    ensures RedactArguments(arguments[from..], next)[i - from] ==
            RedactArgument(arguments[i], HiddenValue(arguments, i))
    decreases i - from
  {
    hide Sensitive, RedactArgument;
    RedactArgumentsStep(arguments, from, next);
    if from == i {
    } else {
      var eq := IndexFrom(arguments[from], '=', 0);
      assert eq < |arguments[from]| ==> arguments[from][eq] == '=';
      assert HidesNext(arguments[from], next) == HiddenValue(arguments, from + 1);
      RedactedFrom(arguments, from + 1, i, HidesNext(arguments[from], next));
    }
  }

  /** Nothing that looks like a credential is left in what is stored. */
  lemma {:induction false} SanitizeCleans(response: Response, arguments: Option<seq<string>>)
    ensures Clean(Sanitize(response, arguments))
  {
    var lines := First(response.lines, MAX_LINES);
    forall i | 0 <= i < |lines|
      ensures CleanAlready(CleanLines(lines)[i])
    {
      RedactIdempotent(Clip(lines[i].message, MAX_LINE_LENGTH));
    }
    if arguments.Some? {
      RedactArgumentsAgain(ClipAll(First(arguments.value, MAX_ARGUMENTS)), false);
    }
  }

  /** What is stored of any response: the first 100 lines, each with its message cut to 4096 and
      redacted and its first 100 performance values; and of arguments that are handed over the
      first 100, each cut to 1024, redacted. */
  lemma {:induction false} SanitizedIs(response: Response, arguments: seq<string>, i: nat)
    ensures var r := Sanitize(response, Some(arguments));
            && |r.lines| == (if |response.lines| < 100 then |response.lines| else 100)
            && (i < |r.lines| ==>
                  && r.lines[i].message == Redact(Clip(response.lines[i].message, 4096))
                  && r.lines[i].perf <= response.lines[i].perf
                  && |r.lines[i].perf| == if |response.lines[i].perf| < 100 then |response.lines[i].perf| else 100)
            && |r.arguments| == (if |arguments| < 100 then |arguments| else 100)
            && exists kept :: |kept| == |r.arguments| && r.arguments == RedactArguments(kept, false) &&
                 forall k :: 0 <= k < |kept| ==> kept[k] == Clip(arguments[k], 1024)
    ensures Sanitize(response, None) == Sanitize(response, Some(arguments)).(arguments := [])
  {
    hide Redact, RedactArguments, Clip;
    var kept := ClipAll(First(arguments, MAX_ARGUMENTS));
    assert Sanitize(response, Some(arguments)).arguments == RedactArguments(kept, false);
  }

  /** A response within the caps and without credentials is stored as it came but for the
      opaque data, and arguments are stored only when they are handed over. */
  lemma {:induction false} SanitizeKeepsTheRest(response: Response, arguments: Option<seq<string>>)
    requires |response.lines| <= MAX_LINES
    requires forall i :: 0 <= i < |response.lines| ==>
               CleanAlready(response.lines[i]) && |response.lines[i].message| <= MAX_LINE_LENGTH
    ensures Sanitize(response, None) == response.(arguments := [], data := "")
    ensures Sanitize(response, arguments).(arguments := []) == response.(arguments := [], data := "")
  {
    hide Redact;
    assert CleanLines(response.lines) == response.lines;
  }

  // ---- the log and its critical sections ----------------------------------------------------------

  /** `cleared` counts the entries removed by a clear or by disabling the store. */
  datatype Log = Log(entries: seq<Entry>, options: Options, nextIndex: nat, dropped: nat, cleared: nat)

  const EMPTY := Log([], DEFAULT_OPTIONS, 1, 0, 0)

  function Clamp(o: Options): Options {
    var atLeastOne := if o.maxEntries < 1 then 1 else o.maxEntries;
    o.(maxEntries := if atLeastOne > MAX_MAX_ENTRIES then MAX_MAX_ENTRIES else atLeastOne,
       statuses := o.statuses * DEFAULT_STATUSES)
  }

  /** The oldest entries go until the rest fits. */
  function Trim(l: Log): Log {
    var n := l.options.maxEntries;
    if |l.entries| <= n then l
    else l.(entries := l.entries[|l.entries| - n..], dropped := l.dropped + |l.entries| - n)
  }

  function Cleared(l: Log): Log {
    l.(entries := [], cleared := l.cleared + |l.entries|)
  }

  function Configured(l: Log, o: Options): Log {
    var m := l.(options := Clamp(o));
    if m.options.enabled then Trim(m) else Cleared(m)
  }

  /** First half of record: whether to go on, judged by the options in force now. */
  predicate Records(l: Log, code: int) {
    l.options.enabled && 0 <= code < 32 && code in l.options.statuses
  }

  function Prepared(l: Log, response: Response, arguments: Option<seq<string>>, subject: string, depth: int, now: int)
    : Item
  {
    Item(now, Clip(subject, MAX_SUBJECT_LENGTH), if depth < 0 then 0 else depth,
         Sanitize(response, if l.options.recordArguments then arguments else None))
  }

  /** Second half of record: the store may have been switched off meanwhile. */
  function Committed(l: Log, item: Item): Log {
    if !l.options.enabled then l
    else Trim(l.(entries := l.entries + [Entry(l.nextIndex, item)], nextIndex := l.nextIndex + 1))
  }

  // ---- listing ---------------------------------------------------------------------------------------

  /** The entries past `since`, newest first. */
  function NewestFirst(entries: seq<Entry>, since: nat): seq<Entry> {
    if entries == [] then []
    else
      var last := entries[|entries| - 1];
      (if last.index > since then [last] else []) + NewestFirst(entries[..|entries| - 1], since)
  }

  function Listed(entries: seq<Entry>, since: nat, limit: nat): seq<Entry> {
    var all := NewestFirst(entries, since);
    if limit == 0 then all else First(all, limit)
  }

  // ---- what every interleaving keeps --------------------------------------------------------------------

  /** Indices run without a gap up to the last one handed out. */
  ghost predicate Consecutive(l: Log) {
    && |l.entries| < l.nextIndex
    && forall i :: 0 <= i < |l.entries| ==> l.entries[i].index == l.nextIndex - |l.entries| + i
  }

  ghost predicate Inv(l: Log) {
    && Consecutive(l)
    && 1 <= l.options.maxEntries <= MAX_MAX_ENTRIES && |l.entries| <= l.options.maxEntries
    && l.options.statuses <= DEFAULT_STATUSES
    && (!l.options.enabled ==> l.entries == [])
    && l.nextIndex - 1 == |l.entries| + l.dropped + l.cleared
    && forall i :: 0 <= i < |l.entries| ==> Clean(l.entries[i].item.response)
  }

  /** Threads between the two halves of record, with what they are about to store. */
  datatype System = System(log: Log, pending: map<nat, Item>)

  datatype Op =
    | Configure(options: Options)
    | Begin(thread: nat, response: Response, arguments: Option<seq<string>>, subject: string, depth: int, now: int)
    | Commit(thread: nat)
    | Clear

  function Step(s: System, op: Op): System {
    match op
    case Configure(o) => s.(log := Configured(s.log, o))
    case Begin(t, response, arguments, subject, depth, now) =>
      if Records(s.log, response.result)
      then s.(pending := s.pending[t := Prepared(s.log, response, arguments, subject, depth, now)])
      else s
    case Commit(t) =>
      if t in s.pending then System(Committed(s.log, s.pending[t]), s.pending - {t}) else s
    case Clear => s.(log := Cleared(s.log))
  }

  function Run(s: System, ops: seq<Op>): System
    decreases ops
  {
    if ops == [] then s else Run(Step(s, ops[0]), ops[1..])
  }

  ghost predicate SystemInv(s: System) {
    Inv(s.log) && forall t :: t in s.pending ==> Clean(s.pending[t].response)
  }

  lemma ConfigureKeepsInv(l: Log, o: Options)
    requires Inv(l)
    ensures Inv(Configured(l, o))
  {
    hide Clean;
  }

  lemma CommitKeepsInv(l: Log, item: Item)
    requires Inv(l) && Clean(item.response)
    ensures Inv(Committed(l, item))
  {
    hide Clean;
  }

  lemma {:induction false} StepKeepsInv(s: System, op: Op)
    requires SystemInv(s)
    ensures SystemInv(Step(s, op))
  {
    hide Clean, Sanitize;
    match op
    case Configure(o) => ConfigureKeepsInv(s.log, o);
    case Begin(_, response, arguments, _, _, _) =>
      SanitizeCleans(response, if s.log.options.recordArguments then arguments else None);
    case Commit(t) => if t in s.pending { CommitKeepsInv(s.log, s.pending[t]); }
    case Clear =>
  }

  /** Over every interleaving: no gaps, the cap holds, a disabled store is empty,
      and every index handed out is stored, dropped or cleared. */
  lemma {:induction false} RunKeepsInv(s: System, ops: seq<Op>)
    requires SystemInv(s)
    ensures SystemInv(Run(s, ops))
    decreases |ops|
  {
    if ops == [] {
    } else {
      StepKeepsInv(s, ops[0]);
      RunKeepsInv(Step(s, ops[0]), ops[1..]);
    }
  }

  lemma EmptyInv()
    ensures SystemInv(System(EMPTY, map[]))
  {
  }

  // ---- what a configuration means ------------------------------------------------------------------------

  /** After a configuration the store records a status if and only if it is enabled, the status is
      asked for, and it is warning, critical or unknown. The cap is the one asked for, within 1 to
      10000; an enabled store keeps its newest entries up to it, a disabled one none. */
  lemma ConfiguredIs(l: Log, o: Options, code: int)
    ensures var m := Configured(l, o);
            && (Records(m, code) <==> o.enabled && code in o.statuses && 1 <= code <= 3)
            && (1 <= o.maxEntries <= 10000 ==> m.options.maxEntries == o.maxEntries)
            && (o.maxEntries == 0 ==> m.options.maxEntries == 1)
            && (o.maxEntries > 10000 ==> m.options.maxEntries == 10000)
            && m.options.recordArguments == o.recordArguments && m.nextIndex == l.nextIndex
            && (!o.enabled ==> m.entries == [] && m.dropped == l.dropped)
            && (o.enabled && |l.entries| <= m.options.maxEntries ==> m.entries == l.entries && m.dropped == l.dropped)
            && (o.enabled && |l.entries| > m.options.maxEntries ==>
                  && |m.entries| == m.options.maxEntries && m.dropped - l.dropped == |l.entries| - |m.entries|
                  && l.entries[|l.entries| - |m.entries|..] == m.entries)
  {
  }

  /** A store nobody configured records warning, critical and unknown, keeps 50, and no arguments. */
  lemma DefaultsAre(code: int)
    ensures Records(EMPTY, code) <==> 1 <= code <= 3
    ensures EMPTY.options.maxEntries == 50 && !EMPTY.options.recordArguments && EMPTY.nextIndex == 1
  {
  }

  /** What is prepared for storing: when and where it came from, and the arguments only if the
      store is set to record them. */
  lemma PreparedIs(l: Log, response: Response, arguments: Option<seq<string>>, subject: string, depth: int, now: int)
    ensures var item := Prepared(l, response, arguments, subject, depth, now);
            && item.timestamp == now && item.subject == Clip(subject, 256)
            && (depth >= 0 ==> item.depth == depth) && (depth < 0 ==> item.depth == 0)
            && item.response.command == response.command && item.response.result == response.result
            && (!l.options.recordArguments ==> item.response == Sanitize(response, None))
            && (l.options.recordArguments ==> item.response == Sanitize(response, arguments))
  {
    hide CleanLines, RedactArguments;
  }

  /** A listing is the newest entries past `since`, newest first; all of them when the limit is
      zero, otherwise no more than that. */
  lemma {:induction false} ListedIs(l: Log, since: nat, limit: nat)
    requires Consecutive(l)
    ensures var out := Listed(l.entries, since, limit);
            && |out| == (if limit == 0 || NewCount(l, since) < limit then NewCount(l, since) else limit)
            && forall i :: 0 <= i < |out| ==> out[i] == l.entries[|l.entries| - 1 - i]
  {
    hide NewestFirst;
    ListedAt(l, since);
  }

  /** How many lie past `since`: the stored ones with a greater index. */
  lemma NewCountIs(l: Log, since: nat, i: nat)
    requires Consecutive(l) && i < |l.entries|
    ensures l.entries[|l.entries| - 1 - i].index > since <==> i < NewCount(l, since)
  {
  }

  // ---- a poller that remembers last_index --------------------------------------------------------------

  /** `m` continues `l`: indices never go back, and what `m` still holds of the
      time before is what `l` held under the same index. */
  ghost predicate Continues(l: Log, m: Log) {
    && l.nextIndex <= m.nextIndex
    && forall e :: e in m.entries && e.index < l.nextIndex ==> e in l.entries
  }

  lemma {:induction false} StepContinues(s: System, op: Op)
    ensures Continues(s.log, Step(s, op).log)
  {
    hide Clean, Sanitize;
    var l, m := s.log, Step(s, op).log;
    forall e | e in m.entries && e.index < l.nextIndex
      ensures e in l.entries
    {
      if op.Commit? && op.thread in s.pending {
        assert e in l.entries + [Entry(l.nextIndex, s.pending[op.thread])];
      }
    }
  }

  lemma {:induction false} RunContinues(s: System, ops: seq<Op>)
    ensures Continues(s.log, Run(s, ops).log)
    decreases |ops|
  {
    hide Step;
    if ops == [] {
    } else {
      StepContinues(s, ops[0]);
      RunContinues(Step(s, ops[0]), ops[1..]);
    }
  }

  /** In a log without gaps the listing is the tail past `since`, turned round. */
  lemma {:induction false} ListedAt(l: Log, since: nat)
    requires Consecutive(l)
    ensures |NewestFirst(l.entries, since)| == NewCount(l, since)
    ensures forall i :: 0 <= i < NewCount(l, since) ==>
              NewestFirst(l.entries, since)[i] == l.entries[|l.entries| - 1 - i]
    decreases |l.entries|
  {
    var n := |l.entries|;
    if n == 0 {
    } else {
      var shorter := l.(entries := l.entries[..n - 1], nextIndex := l.nextIndex - 1);
      ListedAt(shorter, since);
    }
  }

  /** How many stored entries lie past `since`. */
  function NewCount(l: Log, since: nat): (r: nat)
    ensures r <= |l.entries|
  {
    if since + 1 >= l.nextIndex then 0
    else if l.nextIndex - 1 - since < |l.entries| then l.nextIndex - 1 - since
    else |l.entries|
  }

  lemma {:induction false} ListedIn(l: Log, since: nat, e: Entry)
    requires Consecutive(l)
    ensures e in NewestFirst(l.entries, since) <==> e in l.entries && e.index > since
  {
    ListedAt(l, since);
    hide NewestFirst;
    var listed, n := NewestFirst(l.entries, since), |l.entries|;
    if e in l.entries && e.index > since {
      var i :| 0 <= i < n && l.entries[i] == e;
      assert listed[n - 1 - i] == e;
    }
    if e in listed {
      var k :| 0 <= k < |listed| && listed[k] == e;
      assert l.entries[n - 1 - k] == e;
    }
  }

  /** A poller asking for what came after the last_index it saw gets every stored
      entry that was not there then and none that was, over any run in between. */
  lemma {:induction false} PollSeesExactlyTheNew(s: System, ops: seq<Op>, e: Entry)
    requires SystemInv(s)
    ensures var l, m := s.log, Run(s, ops).log;
            e in NewestFirst(m.entries, l.nextIndex - 1) <==> e in m.entries && e !in l.entries
  {
    RunKeepsInv(s, ops);
    RunContinues(s, ops);
    hide Run, Clean, NewestFirst;
    ListedIn(Run(s, ops).log, s.log.nextIndex - 1, e);
  }

  // ---- exactly what a record that began gets to store -----------------------------------------------------

  /** Whether the store is on after `ops`: by the last configuration among them, or as it was. */
  predicate EnabledAfter(enabled: bool, ops: seq<Op>)
    decreases ops
  {
    if ops == [] then enabled
    else EnabledAfter(if ops[0].Configure? then ops[0].options.enabled else enabled, ops[1..])
  }

  /** The operation is not one of thread `t`, which is between its two halves. */
  predicate OfOthers(op: Op, t: nat) {
    (op.Begin? || op.Commit?) ==> op.thread != t
  }

  lemma {:induction false} PendingKept(s: System, t: nat, ops: seq<Op>)
    requires t in s.pending && forall i :: 0 <= i < |ops| ==> OfOthers(ops[i], t)
    ensures t in Run(s, ops).pending && Run(s, ops).pending[t] == s.pending[t]
    ensures Run(s, ops).log.options.enabled == EnabledAfter(s.log.options.enabled, ops)
    decreases |ops|
  {
    hide Sanitize;
    if ops == [] {
    } else {
      PendingKept(Step(s, ops[0]), t, ops[1..]);
    }
  }

  /** However other threads record, clear and configure meanwhile: what a thread prepared
      at its first half is stored at its second, last and under the next index, if and only
      if the last configuration before it leaves the store enabled. Which statuses are
      recorded by then, and a clear or a switch-off in between, make no difference. */
  lemma {:induction false} StoredIffEnabledAtCommit(s: System, t: nat, ops: seq<Op>)
    requires SystemInv(s) && t in s.pending && forall i :: 0 <= i < |ops| ==> OfOthers(ops[i], t)
    ensures var l, m := Run(s, ops).log, Run(s, ops + [Commit(t)]).log;
            var stored := m.entries != [] && m.entries[|m.entries| - 1] == Entry(l.nextIndex, s.pending[t]);
            && (stored <==> EnabledAfter(s.log.options.enabled, ops))
            && (!stored ==> m == l)
  {
    hide Run, Inv, Committed, EnabledAfter;
    PendingKept(s, t, ops);
    RunKeepsInv(s, ops);
    RunSnoc(s, ops, Commit(t));
    CommitStores(Run(s, ops).log, s.pending[t]);
  }

  lemma CommitStores(l: Log, item: Item)
    requires Inv(l)
    ensures var m := Committed(l, item);
            var stored := m.entries != [] && m.entries[|m.entries| - 1] == Entry(l.nextIndex, item);
            (stored <==> l.options.enabled) && (!stored ==> m == l)
  {
    hide Clean;
    assert forall i :: 0 <= i < |l.entries| ==> l.entries[i].index < l.nextIndex;
  }

  lemma {:induction false} RunSnoc(s: System, ops: seq<Op>, op: Op)
    ensures Run(s, ops + [op]) == Step(Run(s, ops), op)
    decreases |ops|
  {
    hide Step;
    if ops == [] {
      assert ([] + [op])[1..] == [];
      assert Run(Step(s, op), []) == Step(s, op);
    } else {
      assert (ops + [op])[1..] == ops[1..] + [op];
      RunSnoc(Step(s, ops[0]), ops[1..], op);
    }
  }

  /** One record under any interference: begun in state `s`, with other threads' `ops` before
      its second half, it stores its entry if and only if the status was recorded at the start
      and the store is enabled at the end. */
  lemma {:induction false} RecordUnderInterference(s: System, begin: Op, ops: seq<Op>)
    requires SystemInv(s) && begin.Begin? && begin.thread !in s.pending
    requires forall i :: 0 <= i < |ops| ==> OfOthers(ops[i], begin.thread)
    ensures var l, m := Run(Step(s, begin), ops).log, Run(Step(s, begin), ops + [Commit(begin.thread)]).log;
            var item := Prepared(s.log, begin.response, begin.arguments, begin.subject, begin.depth, begin.now);
            if Records(s.log, begin.response.result) && EnabledAfter(true, ops)
            then m.entries != [] && m.entries[|m.entries| - 1] == Entry(l.nextIndex, item)
            else m == l
  {
    var r, t := Step(s, begin), begin.thread;
    StepKeepsInv(s, begin);
    if Records(s.log, begin.response.result) {
      StoredIffEnabledAtCommit(r, t, ops);
    } else {
      hide Inv, Clean, Sanitize, Records;
      AbsentKept(r, t, ops);
      RunSnoc(r, ops, Commit(t));
    }
  }

  lemma {:induction false} AbsentKept(s: System, t: nat, ops: seq<Op>)
    requires t !in s.pending && forall i :: 0 <= i < |ops| ==> OfOthers(ops[i], t)
    ensures t !in Run(s, ops).pending
    decreases |ops|
  {
    hide Sanitize;
    if ops == [] {
    } else {
      AbsentKept(Step(s, ops[0]), t, ops[1..]);
    }
  }

  lemma RunFour(s: System, a: Op, b: Op, c: Op, d: Op)
    ensures Run(s, [a, b, c, d]) == Step(Step(Step(Step(s, a), b), c), d)
  {
    hide Step;
    assert [a, b, c, d][1..] == [b, c, d] && [b, c, d][1..] == [c, d] && [c, d][1..] == [d] && [d][1..] == [];
    assert Run(Step(s, a), [b, c, d]) == Run(Step(Step(s, a), b), [c, d]);
    assert Run(Step(Step(Step(s, a), b), c), [d]) == Run(Step(Step(Step(Step(s, a), b), c), d), []);
  }

  /** Switching the store off does not reach a recorder that is half way: switched
      back on before it commits, its entry from before the clear is kept. */
  lemma OutlivesTheSwitchOff(r: Response, t: nat)
    requires r.result == 2
    ensures var ops := [Begin(t, r, None, "", 0, 0), Configure(DEFAULT_OPTIONS.(enabled := false)),
                        Configure(DEFAULT_OPTIONS), Commit(t)];
            |Run(System(EMPTY, map[]), ops).log.entries| == 1
  {
    hide Sanitize;
    var s0 := System(EMPTY, map[]);
    var o0, o1, o2, o3 := Begin(t, r, None, "", 0, 0), Configure(DEFAULT_OPTIONS.(enabled := false)),
                          Configure(DEFAULT_OPTIONS), Commit(t);
    var s1 := Step(s0, o0);
    var s2 := Step(s1, o1);
    var s3 := Step(s2, o2);
    var s4 := Step(s3, o3);
    RunFour(s0, o0, o1, o2, o3);
    assert |s4.log.entries| == 1;
  }

  // ---- pairing a response with the request it answers --------------------------------------------------------

  predicate SameCommand(a: string, b: string) {
    Lower(a) == Lower(b)
  }

  /** How many of the first `n` names are the command `key`. */
  function Rank(names: seq<string>, key: string, n: nat): (r: nat)
    requires n <= |names|
    ensures r <= n
  {
    if n == 0 then 0 else Rank(names, key, n - 1) + if SameCommand(names[n - 1], key) then 1 else 0
  }

  lemma {:induction false} RankGrows(names: seq<string>, key: string, i: nat, j: nat)
    requires i <= j <= |names|
    ensures Rank(names, key, i) <= Rank(names, key, j)
    ensures i < j && SameCommand(names[i], key) ==> Rank(names, key, i) < Rank(names, key, j)
    decreases j
  {
    if i == j {
    } else {
      RankGrows(names, key, i, j - 1);
    }
  }

  lemma {:induction false} RankOfSame(names: seq<string>, a: string, b: string, n: nat)
    requires n <= |names| && SameCommand(a, b)
    ensures Rank(names, a, n) == Rank(names, b, n)
    decreases n
  {
    if n == 0 {
    } else {
      RankOfSame(names, a, b, n - 1);
    }
  }

  /** The k-th answer to a command goes with the k-th request for it; an answer
      beyond the requests goes with none. */
  ghost predicate Paired(requests: seq<string>, responses: seq<string>, j: nat, pair: Option<nat>)
    requires j < |responses|
  {
    var key := responses[j];
    match pair
    case Some(i) =>
      i < |requests| && SameCommand(requests[i], key) && Rank(requests, key, i) == Rank(responses, key, j)
    case None => Rank(requests, key, |requests|) <= Rank(responses, key, j)
  }

  /** Request i is taken once its command was answered more often than it was asked before i. */
  ghost predicate Marks(requests: seq<string>, responses: seq<string>, j: nat, used: seq<bool>)
    requires j <= |responses| && |used| == |requests|
  {
    forall i :: 0 <= i < |requests| ==> (used[i] <==> Rank(requests, requests[i], i) < Rank(responses, requests[i], j))
  }

  method FindUnused(requests: seq<string>, responses: seq<string>, j: nat, used: array<bool>)
    returns (pair: Option<nat>)
    requires j < |responses| && used.Length == |requests| && Marks(requests, responses, j, used[..])
    ensures Paired(requests, responses, j, pair)
    ensures pair.Some? ==> !used[pair.value]
  {
    hide SameCommand;
    var key := responses[j];
    var i := 0;
    while i < |requests|
      invariant 0 <= i <= |requests|
      invariant Rank(requests, key, i) <= Rank(responses, key, j)
    {
      if SameCommand(requests[i], key) {
        RankOfSame(requests, requests[i], key, i);
        RankOfSame(responses, requests[i], key, j);
        assert used[..][i] == used[i];
        if !used[i] { return Some(i); }
      }
      i := i + 1;
    }
    return None;
  }

  lemma {:induction false} MarksNone(requests: seq<string>, responses: seq<string>, j: nat, used: seq<bool>)
    requires j < |responses| && |used| == |requests| && Marks(requests, responses, j, used)
    requires Paired(requests, responses, j, None)
    ensures Marks(requests, responses, j + 1, used)
  {
    var key := responses[j];
    forall i | 0 <= i < |requests|
      ensures used[i] <==> Rank(requests, requests[i], i) < Rank(responses, requests[i], j + 1)
    {
      if SameCommand(requests[i], key) {
        RankOfSame(requests, requests[i], key, i);
        RankOfSame(responses, requests[i], key, j);
        RankGrows(requests, key, i, |requests|);
      }
    }
  }

  lemma {:induction false} MarksSome(requests: seq<string>, responses: seq<string>, j: nat, used: seq<bool>, p: nat)
    requires j < |responses| && |used| == |requests| && Marks(requests, responses, j, used)
    requires Paired(requests, responses, j, Some(p))
    ensures Marks(requests, responses, j + 1, used[p := true])
  {
    var key := responses[j];
    forall i | 0 <= i < |requests|
      ensures used[p := true][i] <==> Rank(requests, requests[i], i) < Rank(responses, requests[i], j + 1)
    {
      if SameCommand(requests[i], key) {
        RankOfSame(requests, requests[i], key, i);
        RankOfSame(responses, requests[i], key, j);
        if i < p { RankGrows(requests, key, i, p); }
        if p < i { RankGrows(requests, key, p, i); }
      }
    }
  }

  method PairPayloads(requests: seq<string>, responses: seq<string>) returns (pairs: seq<Option<nat>>)
    ensures |pairs| == |responses|
    ensures forall j :: 0 <= j < |pairs| ==> Paired(requests, responses, j, pairs[j])
  {
    hide Rank, SameCommand;
    var used := new bool[|requests|](_ => false);
    pairs := [];
    NothingMarked(requests, responses, used[..]);
    for j := 0 to |responses|
      invariant |pairs| == j
      invariant Marks(requests, responses, j, used[..])
      invariant forall k :: 0 <= k < j ==> Paired(requests, responses, k, pairs[k])
    {
      var pair := FindUnused(requests, responses, j, used);
      if pair.Some? {
        MarksSome(requests, responses, j, used[..], pair.value);
        ghost var marked := used[..][pair.value := true];
        used[pair.value] := true;
        assert used[..] == marked;
      } else {
        MarksNone(requests, responses, j, used[..]);
      }
      pairs := pairs + [pair];
    }
  }

  lemma NothingMarked(requests: seq<string>, responses: seq<string>, used: seq<bool>)
    requires |used| == |requests| && forall i :: 0 <= i < |used| ==> !used[i]
    ensures Marks(requests, responses, 0, used)
  {
  }

  function Names(requests: seq<(string, seq<string>)>): (r: seq<string>)
    ensures |r| == |requests|
  {
    seq(|requests|, i requires 0 <= i < |requests| => requests[i].0)
  }

  function Commands(responses: seq<Response>): (r: seq<string>)
    ensures |r| == |responses|
    ensures forall i :: 0 <= i < |responses| ==> r[i] == responses[i].command
  {
    seq(|responses|, i requires 0 <= i < |responses| => responses[i].command)
  }

  function Lent(requests: seq<(string, seq<string>)>, pair: Option<nat>): Option<seq<string>> {
    if pair.Some? && pair.value < |requests| then Some(requests[pair.value].1) else None
  }

  /** Where a record comes from: subject, depth and time. */
  datatype Origin = Origin(subject: string, depth: int, now: int)

  function RecordedOne(l: Log, response: Response, arguments: Option<seq<string>>, from: Origin): Log {
    if Records(l, response.result)
    then Committed(l, Prepared(l, response, arguments, from.subject, from.depth, from.now))
    else l
  }

  function RecordedUpTo(l: Log, requests: seq<(string, seq<string>)>, responses: seq<Response>,
                        pairs: seq<Option<nat>>, from: Origin, n: nat): Log
    requires n <= |responses| && n <= |pairs|
  {
    if n == 0 then l
    else
      var before := RecordedUpTo(l, requests, responses, pairs, from, n - 1);
      RecordedOne(before, responses[n - 1], Lent(requests, pairs[n - 1]), from)
  }

  lemma {:induction false} RecordedPrefix(l: Log, requests: seq<(string, seq<string>)>, responses: seq<Response>,
                                          pairs: seq<Option<nat>>, more: Option<nat>, from: Origin, n: nat)
    requires n <= |responses| && n <= |pairs|
    ensures RecordedUpTo(l, requests, responses, pairs + [more], from, n) ==
            RecordedUpTo(l, requests, responses, pairs, from, n)
    decreases n
  {
    hide RecordedOne;
    if n == 0 {
    } else {
      RecordedPrefix(l, requests, responses, pairs, more, from, n - 1);
    }
  }

  lemma RecordedNext(l: Log, requests: seq<(string, seq<string>)>, responses: seq<Response>,
                     pairs: seq<Option<nat>>, more: Option<nat>, from: Origin)
    requires |pairs| < |responses|
    ensures RecordedUpTo(l, requests, responses, pairs + [more], from, |pairs| + 1) ==
            var before := RecordedUpTo(l, requests, responses, pairs, from, |pairs|);
            RecordedOne(before, responses[|pairs|], Lent(requests, more), from)
  {
    hide RecordedOne;
    RecordedPrefix(l, requests, responses, pairs, more, from, |pairs|);
  }

  /** What other threads do before an answer is looked at, and between its two halves. */
  datatype Gap = Gap(before: seq<Op>, between: seq<Op>)

  predicate GapOfOthers(gap: Gap, t: nat) {
    && (forall i :: 0 <= i < |gap.before| ==> OfOthers(gap.before[i], t))
    && (forall i :: 0 <= i < |gap.between| ==> OfOthers(gap.between[i], t))
  }

  function Answer(t: nat, response: Response, arguments: Option<seq<string>>, from: Origin): Op {
    Begin(t, response, arguments, from.subject, from.depth, from.now)
  }

  /** The system after thread `t` went through the first `n` answers, with the gaps filled in. */
  function AfterAnswers(s: System, t: nat, answers: seq<Op>, gaps: seq<Gap>, n: nat): System
    requires n <= |answers| && n <= |gaps|
  {
    if n == 0 then s
    else
      var ready := Run(AfterAnswers(s, t, answers, gaps, n - 1), gaps[n - 1].before);
      Run(Step(ready, answers[n - 1]), gaps[n - 1].between + [Commit(t)])
  }

  /** `answers` are the records of thread `t` for the responses, each with what its request lends. */
  ghost predicate AnswersTo(answers: seq<Op>, t: nat, requests: seq<(string, seq<string>)>, responses: seq<Response>,
                            pairs: seq<Option<nat>>, from: Origin) {
    && |answers| == |responses| == |pairs|
    && (forall j :: 0 <= j < |pairs| ==> Paired(Names(requests), Commands(responses), j, pairs[j]))
    && (forall j :: 0 <= j < |answers| ==> answers[j] == Answer(t, responses[j], Lent(requests, pairs[j]), from))
  }

  lemma {:induction false} BetweenAnswers(s: System, t: nat, answers: seq<Op>, gaps: seq<Gap>, n: nat)
    requires SystemInv(s) && t !in s.pending && n <= |answers| && |gaps| == |answers|
    requires forall j :: 0 <= j < |answers| ==> answers[j].Begin? && answers[j].thread == t && GapOfOthers(gaps[j], t)
    ensures SystemInv(AfterAnswers(s, t, answers, gaps, n)) && t !in AfterAnswers(s, t, answers, gaps, n).pending
    decreases n
  {
    hide Inv, Run, Clean, Sanitize;
    if n == 0 {
    } else {
      BetweenAnswers(s, t, answers, gaps, n - 1);
      var before := AfterAnswers(s, t, answers, gaps, n - 1);
      var gap := gaps[n - 1];
      var ready := Run(before, gap.before);
      RunKeepsInv(before, gap.before);
      StepKeepsInv(ready, answers[n - 1]);
      RunKeepsInv(Step(ready, answers[n - 1]), gap.between + [Commit(t)]);
      RunSnoc(Step(ready, answers[n - 1]), gap.between, Commit(t));
    }
  }

  /** record_message under any interference: the answer number `n` is stored, with the arguments of
      the request it is paired with, if and only if its status was recorded when it was looked at
      and the store is enabled when it commits. */
  lemma {:induction false} MessageUnderInterference(
      s: System, t: nat, requests: seq<(string, seq<string>)>, responses: seq<Response>, pairs: seq<Option<nat>>,
      from: Origin, answers: seq<Op>, gaps: seq<Gap>, n: nat)
    requires SystemInv(s) && t !in s.pending && n < |responses| && |gaps| == |responses|
    requires AnswersTo(answers, t, requests, responses, pairs, from)
    requires forall j :: 0 <= j < |gaps| ==> GapOfOthers(gaps[j], t)
    ensures var ready := Run(AfterAnswers(s, t, answers, gaps, n), gaps[n].before);
            var l, m := Run(Step(ready, answers[n]), gaps[n].between).log, AfterAnswers(s, t, answers, gaps, n + 1).log;
            var item := Prepared(ready.log, responses[n], Lent(requests, pairs[n]), from.subject, from.depth, from.now);
            if Records(ready.log, responses[n].result) && EnabledAfter(true, gaps[n].between)
            then m.entries != [] && m.entries[|m.entries| - 1] == Entry(l.nextIndex, item)
            else m == l
  {
    hide Inv, Run, Clean, Sanitize, Step, Paired, Prepared;
    BetweenAnswers(s, t, answers, gaps, n);
    var before := AfterAnswers(s, t, answers, gaps, n);
    RunKeepsInv(before, gaps[n].before);
    AbsentKept(before, t, gaps[n].before);
    RecordUnderInterference(Run(before, gaps[n].before), answers[n], gaps[n].between);
  }

  /** No request lends its arguments to two answers. */
  lemma {:induction false} PairedOnce(requests: seq<string>, responses: seq<string>, j: nat, k: nat, i: nat)
    requires j < k < |responses|
    requires Paired(requests, responses, j, Some(i))
    ensures !Paired(requests, responses, k, Some(i))
  {
    var a, b := responses[j], responses[k];
    if SameCommand(a, b) {
      RankOfSame(requests, a, b, i);
      RankOfSame(responses, a, b, j);
      RankGrows(responses, b, j, k);
    }
  }

  // ---- the store itself ------------------------------------------------------------------------------------------

  lemma RecordedNone(l: Log, requests: seq<(string, seq<string>)>, responses: seq<Response>, from: Origin)
    ensures RecordedUpTo(l, requests, responses, [], from, 0) == l
  {
  }

  class Store {
    var entries: seq<Entry>
    var options: Options
    var nextIndex: nat
    var dropped: nat
    ghost var cleared: nat

    ghost function View(): Log
      reads this
    {
      Log(entries, options, nextIndex, dropped, cleared)
    }

    constructor ()
      ensures View() == EMPTY
    {
      entries := [];
      options := DEFAULT_OPTIONS;
      nextIndex := 1;
      dropped := 0;
      cleared := 0;
    }

    method TrimLocked()
      modifies `entries, `dropped
      ensures View() == Trim(old(View()))
    {
      ghost var was := entries;
      while |entries| > options.maxEntries
        invariant |entries| <= |was| && entries == was[|was| - |entries|..]
        invariant dropped == old(dropped) + |was| - |entries|
        invariant |was| > options.maxEntries ==> |entries| >= options.maxEntries
        invariant |was| <= options.maxEntries ==> |entries| == |was|
        decreases |entries|
      {
        entries := entries[1..];
        dropped := dropped + 1;
      }
    }

    method Configure(value: Options)
      modifies this
      ensures View() == Configured(old(View()), value)
    {
      options := Clamp(value);
      if !options.enabled {
        cleared := cleared + |entries|;
        entries := [];
        return;
      }
      TrimLocked();
    }

    /** The first critical section of record, and the copy made after it. */
    method RecordBegin(response: Response, arguments: Option<seq<string>>, subject: string, depth: int, now: int)
      returns (item: Option<Item>)
      ensures item == if Records(View(), response.result)
                      then Some(Prepared(View(), response, arguments, subject, depth, now)) else None
    {
      hide Sanitize;
      if !options.enabled || !(0 <= response.result < 32 && response.result in options.statuses) { return None; }
      var kept := if options.recordArguments then arguments else None;
      var level := if depth < 0 then 0 else depth;
      return Some(Item(now, Clip(subject, MAX_SUBJECT_LENGTH), level, Sanitize(response, kept)));
    }

    /** The second critical section of record. */
    method RecordCommit(item: Item) returns (stored: bool)
      modifies this
      ensures View() == Committed(old(View()), item)
      ensures stored == old(options.enabled)
    {
      if !options.enabled { return false; }
      entries := entries + [Entry(nextIndex, item)];
      nextIndex := nextIndex + 1;
      TrimLocked();
      return true;
    }

    /** Both halves of one record, with nothing in between. */
    method Record(response: Response, arguments: Option<seq<string>>, from: Origin) returns (stored: bool)
      modifies this
      ensures View() == RecordedOne(old(View()), response, arguments, from)
      ensures nextIndex == old(nextIndex) + (if stored then 1 else 0)
    {
      hide Sanitize;
      var item := RecordBegin(response, arguments, from.subject, from.depth, from.now);
      if item.None? { return false; }
      stored := RecordCommit(item.value);
    }

    /** Every answer is recorded with the arguments of the request it is paired with. */
    method RecordMessage(requests: seq<(string, seq<string>)>, responses: seq<Response>, from: Origin)
      returns (stored: nat, ghost pairs: seq<Option<nat>>)
      modifies this
      ensures |pairs| == |responses|
      ensures forall j :: 0 <= j < |pairs| ==> Paired(Names(requests), Commands(responses), j, pairs[j])
      ensures View() == RecordedUpTo(old(View()), requests, responses, pairs, from, |responses|)
      ensures nextIndex == old(nextIndex) + stored
    {
      hide RecordedOne, RecordedUpTo, Paired, Marks;
      var found := PairPayloads(Names(requests), Commands(responses));
      pairs := [];
      stored := 0;
      RecordedNone(View(), requests, responses, from);
      for j := 0 to |responses|
        invariant pairs == found[..j]
        invariant View() == RecordedUpTo(old(View()), requests, responses, pairs, from, j)
        invariant nextIndex == old(nextIndex) + stored
      {
        RecordedNext(old(View()), requests, responses, pairs, found[j], from);
        var kept := Record(responses[j], Lent(requests, found[j]), from);
        if kept { stored := stored + 1; }
        pairs := pairs + [found[j]];
      }
    }

    method List(since: nat, limit: nat) returns (out: seq<Entry>)
      requires Consecutive(View())
      ensures out == Listed(entries, since, limit)
    {
      hide NewestFirst;
      ListedAt(View(), since);
      ghost var all := NewestFirst(entries, since);
      out := [];
      var i := |entries|;
      while i > 0
        invariant 0 <= i <= |entries|
        invariant |out| == |entries| - i <= |all|
        invariant forall k :: 0 <= k < |out| ==> out[k] == all[k]
        invariant limit == 0 || |out| <= limit
      {
        if entries[i - 1].index <= since { break; }
        if limit > 0 && |out| >= limit { break; }
        out := out + [entries[i - 1]];
        i := i - 1;
      }
      assert out == all[..|out|];
    }

    method Clear() returns (removed: nat)
      modifies `entries, `cleared
      ensures View() == Cleared(old(View()))
      ensures removed == |old(entries)|
    {
      removed := |entries|;
      cleared := cleared + |entries|;
      entries := [];
    }

    method LastIndex() returns (r: nat)
      requires Inv(View())
      ensures r == |entries| + dropped + cleared
      ensures entries != [] ==> r == entries[|entries| - 1].index
    {
      return nextIndex - 1;
    }
  }
}
