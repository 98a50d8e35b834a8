/**
 * The decision logic of the file logger (mini/log/FileLogController.kt):
 * which old log files `deleteOldLogs` removes, the level gate of
 * `FileTree.log` with its bounded queue, and the `LogLine` record the
 * writer thread formats and clears.
 */
module LogFiles {
  import opened Wrappers
  import opened Collections
  import opened TypedTasks

  /** `LOG_FILES_MAX_AGE`: three days, in milliseconds. */
  const LOG_FILES_MAX_AGE: int := 3 * 24 * 60 * 60 * 1000
  /** `Int.MAX_VALUE`, the default `maxCount`. */
  const INT_MAX_VALUE: int := 0x7fff_ffff
  /** The capacity of the `ArrayBlockingQueue` of pending lines. */
  const QUEUE_CAPACITY: nat := 100

  /** Android's priority constants (`android.util.Log`). */
  const DEBUG: int := 3
  const INFO: int := 4
  const WARN: int := 5
  const ERROR: int := 6

  // ---------------------------------------------------------------------------
  // deleteOldLogs
  // ---------------------------------------------------------------------------

  /** A file of the logs folder: its name and `lastModified()`. */
  datatype LogFile = LogFile(name: string, lastModified: int)

  function RecencyKey(f: LogFile): seq<int> {
    [-f.lastModified]
  }

  /** `sortedByDescending { it.lastModified() }`: a stable sort, most recent first. */
  function ByRecency(files: seq<LogFile>): (r: seq<LogFile>)
    ensures multiset(r) == multiset(files)
    ensures forall i, j :: 0 <= i < j < |r| ==> r[i].lastModified >= r[j].lastModified
  {
    var r := SortBy(files, RecencyKey);
    assert forall i, j :: 0 <= i < j < |r| ==> LexLe(RecencyKey(r[i]), RecencyKey(r[j]));
    r
  }

  /** The `filterIndexed` test: never the first file; otherwise too old, or beyond `maxCount`. */
  predicate IsSelected(index: nat, f: LogFile, now: int, maxAge: int, maxCount: int) {
    index != 0 && (now - f.lastModified > maxAge || index > maxCount)
  }

  /** The positions, from `start` on, of the files `filterIndexed` keeps. */
  function SelectedFrom(sorted: seq<LogFile>, start: nat, now: int, maxAge: int, maxCount: int): (r: seq<nat>)
    requires start <= |sorted|
    ensures forall i: nat :: i in r <==> start <= i < |sorted| && IsSelected(i, sorted[i], now, maxAge, maxCount)
    ensures forall k, l :: 0 <= k < l < |r| ==> r[k] < r[l]
    ensures forall k :: 0 <= k < |r| ==> start <= r[k] < |sorted|
    decreases |sorted| - start
  {
    if start == |sorted| then []
    else
      var rest := SelectedFrom(sorted, start + 1, now, maxAge, maxCount);
      if IsSelected(start, sorted[start], now, maxAge, maxCount) then [start] + rest else rest
  }

  /**
   * The positions in the sorted listing that `deleteOldLogs` tries to
   * delete, in order: exactly the selected ones, so never the most
   * recent file at position 0.
   */
  function Selected(sorted: seq<LogFile>, now: int, maxAge: int, maxCount: int): (r: seq<nat>)
    ensures forall i: nat :: i in r <==> i < |sorted| && IsSelected(i, sorted[i], now, maxAge, maxCount)
    ensures forall k, l :: 0 <= k < l < |r| ==> r[k] < r[l]
    ensures 0 !in r
    ensures |sorted| > 0 ==> |r| <= |sorted| - 1
  {
    var r := SelectedFrom(sorted, 0, now, maxAge, maxCount);
    if |sorted| > 0 then
      AscendingWithin(r, 1, |sorted|);
      r
    else
      r
  }

  /** A strictly ascending sequence of values in `[lo, hi)` has at most `hi - lo` elements. */
  lemma {:induction false} AscendingWithin(r: seq<nat>, lo: nat, hi: nat)
    requires lo <= hi
    requires forall k, l :: 0 <= k < l < |r| ==> r[k] < r[l]
    requires forall k :: 0 <= k < |r| ==> lo <= r[k] < hi
    ensures |r| <= hi - lo
    decreases |r|
  {
    if r != [] {
      assert forall k :: 0 < k < |r| ==> r[0] < r[k];
      assert forall k :: 0 <= k < |r[1..]| ==> r[1..][k] == r[k + 1];
      AscendingWithin(r[1..], r[0] + 1, hi);
    }
  }

  /** With the default `maxCount`, a listing of at most `Int.MAX_VALUE + 1` files is selected by age alone. */
  lemma DefaultCountSelectsByAge(sorted: seq<LogFile>, now: int, maxAge: int, i: nat)
    requires |sorted| <= INT_MAX_VALUE + 1 && i < |sorted|
    ensures IsSelected(i, sorted[i], now, maxAge, INT_MAX_VALUE) <==> i != 0 && now - sorted[i].lastModified > maxAge
  {
  }

  /**
   * `deleteOldLogs()` with its default arguments: among up to
   * `Int.MAX_VALUE + 1` files, a position is picked exactly when it is not
   * the most recent file and that file is more than three days old.
   */
  lemma DefaultDeleteOldLogsPicks(sorted: seq<LogFile>, now: int, i: nat)
    requires |sorted| <= INT_MAX_VALUE + 1 && i < |sorted|
    ensures LOG_FILES_MAX_AGE == 259_200_000
    ensures i in Selected(sorted, now, LOG_FILES_MAX_AGE, INT_MAX_VALUE)
            <==> i != 0 && now - sorted[i].lastModified > 259_200_000
  {
    DefaultCountSelectsByAge(sorted, now, LOG_FILES_MAX_AGE, i);
  }

  /**
   * `deleteOldLogs(maxAge, maxCount)`. `listing` is `logsFolder?.listFiles()`
   * (None when the folder or the listing is null), `now` the clock, and
   * `deletes(f)` whether `f.delete()` succeeds. Returns the number of files
   * deleted and the files tried, in order.
   */
  method DeleteOldLogs(listing: Option<seq<LogFile>>, now: int, maxAge: int, maxCount: int, deletes: LogFile -> bool)
    returns (deleted: int, tried: seq<LogFile>)
    ensures listing.None? ==> deleted == 0 && tried == []
    ensures listing.Some? ==>
              var sorted := ByRecency(listing.value);
              var picks := Selected(sorted, now, maxAge, maxCount);
              |tried| == |picks| && forall k :: 0 <= k < |tried| ==> tried[k] == sorted[picks[k]]
    ensures deleted == |Filter(tried, deletes)|
    ensures 0 <= deleted <= |tried|
    ensures listing.Some? && |listing.value| > 0 ==> deleted <= |listing.value| - 1
  {
    deleted := 0;
    tried := [];
    if listing.Some? {
      var sorted := ByRecency(listing.value);
      var picks := Selected(sorted, now, maxAge, maxCount);
      deleted, tried := DeletePicked(sorted, picks, deletes);
    }
  }

  /** The loop of `deleteOldLogs`: try to delete each picked file in turn, counting the successes. */
  method DeletePicked(sorted: seq<LogFile>, picks: seq<nat>, deletes: LogFile -> bool)
    returns (deleted: int, tried: seq<LogFile>)
    requires forall k :: 0 <= k < |picks| ==> picks[k] < |sorted|
    ensures |tried| == |picks| && forall k :: 0 <= k < |tried| ==> tried[k] == sorted[picks[k]]
    ensures deleted == |Filter(tried, deletes)|
  {
    deleted := 0;
    tried := [];
    for k := 0 to |picks|
      invariant |tried| == k && forall j :: 0 <= j < k ==> tried[j] == sorted[picks[j]]
      invariant deleted == |Filter(tried, deletes)|
    {
      var f := sorted[picks[k]];
      FilterAppend(tried, [f], deletes);
      if deletes(f) {
        deleted := deleted + 1;
      }
      tried := tried + [f];
    }
  }

  // ---------------------------------------------------------------------------
  // Splitting a message into lines
  // ---------------------------------------------------------------------------

  /** `split('\n')`: the segments between newlines; always at least one. */
  function Split(s: string): (r: seq<string>)
    ensures |r| >= 1
    ensures forall i :: 0 <= i < |r| ==> '\n' !in r[i]
  {
    if s == [] then [""]
    else
      var rest := Split(s[1..]);
      if s[0] == '\n' then [""] + rest
      else
        assert '\n' !in rest[0];
        [[s[0]] + rest[0]] + rest[1..]
  }

  /** The segments joined back with newlines. */
  function JoinLines(segs: seq<string>): string {
    if segs == [] then ""
    else if |segs| == 1 then segs[0]
    else segs[0] + "\n" + JoinLines(segs[1..])
  }

  /** Joining what `split` cut gives back the message. */
  lemma {:induction false} SplitJoin(s: string)
    ensures JoinLines(Split(s)) == s
  {
    if s != [] {
      SplitJoin(s[1..]);
      var rest := Split(s[1..]);
      if s[0] == '\n' {
        assert s == "\n" + s[1..];
      } else {
        if |rest| == 1 {
          assert s == [s[0]] + rest[0];
        } else {
          assert JoinLines(rest) == rest[0] + "\n" + JoinLines(rest[1..]);
          assert s == [s[0]] + s[1..];
        }
      }
    }
  }

  lemma {:induction false} JoinSnoc(segs: seq<string>, x: string)
    requires segs != []
    ensures JoinLines(segs + [x]) == JoinLines(segs) + "\n" + x
    decreases |segs|
  {
    if |segs| > 1 {
      assert (segs + [x])[1..] == segs[1..] + [x];
      JoinSnoc(segs[1..], x);
    }
  }

  /** `dropLastWhile(String::isEmpty)`. */
  function DropTrailingEmpty(segs: seq<string>): (r: seq<string>)
    ensures r <= segs
    ensures r == [] || r[|r| - 1] != ""
    ensures forall i :: |r| <= i < |segs| ==> segs[i] == ""
  {
    if segs == [] then []
    else if segs[|segs| - 1] == "" then DropTrailingEmpty(segs[..|segs| - 1])
    else segs
  }

  /** A string made of newlines only. */
  predicate OnlyNewlines(s: string) {
    forall i :: 0 <= i < |s| ==> s[i] == '\n'
  }

  /**
   * Dropping the trailing empty segments loses nothing but trailing
   * newlines: the kept segments, joined, are a prefix of the whole and the
   * rest is newlines.
   */
  lemma {:induction false} DropTrailingKeepsText(segs: seq<string>)
    requires segs != []
    ensures JoinLines(DropTrailingEmpty(segs)) <= JoinLines(segs)
    ensures OnlyNewlines(JoinLines(segs)[|JoinLines(DropTrailingEmpty(segs))|..])
    decreases |segs|
  {
    var n := |segs| - 1;
    if segs[n] == "" {
      if n == 0 {
        assert segs == [""];
      } else {
        var a := segs[..n];
        assert segs == a + [""];
        JoinSnoc(a, "");
        DropTrailingKeepsText(a);
        var kept := JoinLines(DropTrailingEmpty(a));
        assert JoinLines(segs) == JoinLines(a) + "\n";
        assert JoinLines(segs)[|kept|..] == JoinLines(a)[|kept|..] + "\n";
      }
    }
  }

  // ---------------------------------------------------------------------------
  // LogLine and FileTree
  // ---------------------------------------------------------------------------

  /** ASCII whitespace as Kotlin's `trim()` sees it. */
  predicate IsWhitespace(c: char) {
    c == ' ' || c == '\t' || c == '\n' || c == '\r' || c == '\U{000B}' || c == '\U{000C}'
    || ('\U{001C}' <= c <= '\U{001F}')
  }

  /** `trim().isEmpty()`. */
  predicate IsBlank(s: string) {
    forall i :: 0 <= i < |s| ==> IsWhitespace(s[i])
  }

  /** The level letter of the prelude. */
  function LevelLetter(level: int): (r: string)
    ensures |r| == 1
    ensures r == "D" <==> level == DEBUG
    ensures r == "I" <==> level == INFO
    ensures r == "W" <==> level == WARN
    ensures r == "E" <==> level == ERROR
    ensures r == "V" <==> level !in {DEBUG, INFO, WARN, ERROR}
  {
    if level == DEBUG then "D"
    else if level == INFO then "I"
    else if level == WARN then "W"
    else if level == ERROR then "E"
    else "V"
  }

  /** String interpolation of a nullable tag. */
  function TagText(tag: Option<string>): string {
    match tag
    case None => "null"
    case Some(t) => t
  }

  /**
   * The formatted message: the printed stack trace when the message is null
   * or blank, otherwise the message, a newline and the stack trace string.
   */
  function FormattedMessage(message: Option<string>, printedTrace: string, traceString: string): (r: string)
    ensures message.None? || IsBlank(message.value) ==> r == printedTrace
    ensures message.Some? && !IsBlank(message.value) ==> |r| > |message.value| && r[..|message.value|] == message.value && r[|message.value|] == '\n'
  {
    if message.None? || IsBlank(message.value) then printedTrace
    else message.value + "\n" + traceString
  }

  /**
   * The lines `format` writes for a formatted message: none for an empty
   * message, else one per segment that survives the drop, each framed by
   * the prelude and `" \r\n"`.
   */
  function FormatLines(formatted: string, prelude: string): (r: seq<string>)
    ensures formatted == "" ==> r == []
    ensures formatted != "" ==>
              var segs := DropTrailingEmpty(Split(formatted));
              |r| == |segs| && forall i :: 0 <= i < |r| ==> r[i] == prelude + " " + segs[i] + " \r\n"
  {
    if formatted == "" then []
    else
      var segs := DropTrailingEmpty(Split(formatted));
      seq(|segs|, i requires 0 <= i < |segs| => prelude + " " + segs[i] + " \r\n")
  }

  /** The segment carried by a written line, recovered by cutting off its frame. */
  function Segment(line: string, prelude: string): string
    requires |line| >= |prelude| + 4
  {
    line[|prelude| + 1..|line| - 3]
  }

  /**
   * What `format` writes loses only trailing newlines: the segments cut
   * back out of the lines, joined, are a prefix of the formatted message and
   * the rest of it is newlines.
   */
  lemma FormatKeepsText(formatted: string, prelude: string)
    requires formatted != ""
    ensures var r := FormatLines(formatted, prelude);
            var segs := seq(|r|, i requires 0 <= i < |r| => if |r[i]| >= |prelude| + 4 then Segment(r[i], prelude) else "");
            && JoinLines(segs) <= formatted
            && OnlyNewlines(formatted[|JoinLines(segs)|..])
  {
    var r := FormatLines(formatted, prelude);
    var kept := DropTrailingEmpty(Split(formatted));
    var segs := seq(|r|, i requires 0 <= i < |r| => if |r[i]| >= |prelude| + 4 then Segment(r[i], prelude) else "");
    forall i | 0 <= i < |r| ensures segs[i] == kept[i] {
      assert r[i] == prelude + " " + kept[i] + " \r\n";
    }
    assert segs == kept;
    SplitJoin(formatted);
    DropTrailingKeepsText(Split(formatted));
  }

  /** A one-line message with an empty stack trace string is written as exactly one line. */
  lemma OneLineMessage(message: string, prelude: string)
    requires !IsBlank(message) && '\n' !in message
    ensures FormatLines(FormattedMessage(Some(message), "", ""), prelude) == [prelude + " " + message + " \r\n"]
  {
    var formatted := message + "\n";
    assert FormattedMessage(Some(message), "", "") == formatted;
    SplitOneLine(message);
    assert Split(formatted) == [message, ""];
    assert DropTrailingEmpty([message, ""]) == DropTrailingEmpty([message]);
    assert message != "";
  }

  lemma {:induction false} SplitOneLine(message: string)
    requires '\n' !in message
    ensures Split(message + "\n") == [message, ""]
  {
    if message != [] {
      assert (message + "\n")[1..] == message[1..] + "\n";
      SplitOneLine(message[1..]);
      assert message == [message[0]] + message[1..];
    } else {
      assert Split("\n"[1..]) == [""];
    }
  }

  /** `LogLine`: a reusable record of one log call. */
  class LogLine {
    var dateTime: int
    var level: int
    var message: Option<string>
    var tag: Option<string>
    var throwable: Option<Throwable>

    /** `LogLine()`: `date = Date()` is the clock reading `now` at creation; everything else is empty. */
    constructor(now: int)
      ensures dateTime == now && level == 0 && message.None? && tag.None? && throwable.None?
    {
      dateTime := now;
      level := 0;
      message := None;
      tag := None;
      throwable := None;
    }

    /** `clear()`: back to the empty record before the line returns to the pool. */
    method Clear()
      modifies this
      ensures dateTime == 0 && level == 0 && message.None? && tag.None? && throwable.None?
    {
      message := None;
      tag := None;
      throwable := None;
      dateTime := 0;
      level := 0;
    }

    /**
     * `format()`. `dateText` is the formatted `date`, `printedTrace` what
     * `printStackTrace` prints for the throwable, `traceString` what
     * `getStackTraceString` returns for it.
     */
    function Format(dateText: string, printedTrace: string, traceString: string): (r: seq<string>)
      reads this
      ensures (message.None? || IsBlank(message.value)) && printedTrace == "" ==> r == []
      ensures var prelude := "[" + dateText + "] " + LevelLetter(level) + "/" + TagText(tag);
              forall i :: 0 <= i < |r| ==>
                && |r[i]| >= |prelude| + 4
                && r[i][..|prelude| + 1] == prelude + " "
                && r[i][|r[i]| - 3..] == " \r\n"
    {
      var prelude := "[" + dateText + "] " + LevelLetter(level) + "/" + TagText(tag);
      var r := FormatLines(FormattedMessage(message, printedTrace, traceString), prelude);
      assert forall i :: 0 <= i < |r| ==> r[i][..|prelude| + 1] == prelude + " " && r[i][|r[i]| - 3..] == " \r\n";
      r
    }
  }

  /** `FileTree`: the level gate in front of the bounded queue the writer thread drains. */
  class FileTree {
    /** The lowest priority written (inclusive). */
    const minLevel: int
    /** The lines waiting for the writer thread, oldest first. */
    var queue: seq<LogLine>

    constructor(minLevel: int)
      ensures this.minLevel == minLevel && queue == []
    {
      this.minLevel := minLevel;
      queue := [];
    }

    /**
     * `log(priority, tag, message, t)` at clock reading `now`: a priority
     * below `minLevel` is dropped; otherwise a new line is filled in and
     * offered to the queue, which refuses it when full.
     */
    method Log(priority: int, tag: Option<string>, message: string, t: Option<Throwable>, now: int)
      modifies this`queue
      ensures priority < minLevel ==> queue == old(queue)
      ensures priority >= minLevel && |old(queue)| >= QUEUE_CAPACITY ==> queue == old(queue)
      ensures priority >= minLevel && |old(queue)| < QUEUE_CAPACITY ==>
                && |queue| == |old(queue)| + 1 && queue[..|old(queue)|] == old(queue)
                && var line := queue[|old(queue)|];
                   fresh(line) && line.level == priority && line.tag == tag && line.message == Some(message)
                   && line.throwable == t && line.dateTime == now
    {
      if priority < minLevel {
        return;
      }
      var line := new LogLine(now);
      line.tag := tag;
      line.message := Some(message);
      line.level := priority;
      line.throwable := t;
      line.dateTime := now;
      if |queue| < QUEUE_CAPACITY {
        queue := queue + [line];
      }
    }
  }
}
