/**
 * The severity levels of the leveled logger: the level constants, the
 * registry that names them, and the threshold that gates every output
 * call of a Logger.
 */
module Levels {
  import opened Base
  import opened Strings

  const LevelDebug: int := 100
  const LevelInfo: int := 200
  const LevelNotice: int := 300
  const LevelWarning: int := 400
  const LevelError: int := 500
  const LevelCritical: int := 600
  const LevelPanic: int := 700
  const LevelFatal: int := 800

  /** The levels from Debug to Fatal, in declaration order. */
  const AllLevels: seq<int> :=
    [LevelDebug, LevelInfo, LevelNotice, LevelWarning, LevelError, LevelCritical, LevelPanic, LevelFatal]

  /** The k-th level constant is (k + 1) * 100, so the levels strictly increase. */
  lemma LevelConstants()
    ensures |AllLevels| == 8
    ensures forall k :: 0 <= k < |AllLevels| ==> AllLevels[k] == (k + 1) * 100
    ensures forall i, j :: 0 <= i < j < |AllLevels| ==> AllLevels[i] < AllLevels[j]
  {
  }

  /** The prefix of the synthetic name of an unregistered level. */
  const NamePrefix: string := "LEVEL"

  /** The registry as the package initialises it. */
  function DefaultLevels(): map<int, string> {
    map[LevelDebug := "DEBUG", LevelInfo := "INFO", LevelNotice := "NOTICE",
        LevelWarning := "WARNING", LevelError := "ERROR", LevelCritical := "CRITICAL",
        LevelPanic := "PANIC", LevelFatal := "FATAL"]
  }

  /**
   * The name of a level: its registered name, or "LEVEL" followed by its
   * decimal form, which strconv.Atoi reads back as the level.
   */
  function LevelName(levels: map<int, string>, level: int): (name: string)
    ensures level in levels ==> name == levels[level]
    ensures level !in levels ==> HasPrefix(name, NamePrefix)
    ensures level !in levels && IsInt64(level) ==> Atoi(name[|NamePrefix|..]) == (level, true)
  {
    if level in levels then levels[level]
    else
      var name := NamePrefix + Itoa(level);
      assert name[|NamePrefix|..] == Itoa(level);
      if IsInt64(level) then AtoiItoa(level); name else name
  }

  /** What NameLevel falls back to when no registered name matches. */
  function PrefixLevel(name: string): int {
    if HasPrefix(name, NamePrefix) then Atoi(name[|NamePrefix|..]).0 else 0
  }

  /**
   * The results NameLevel may return for `name`: a key registered under
   * that name when there is one (map iteration order decides which), and
   * otherwise the number after the "LEVEL" prefix.
   */
  ghost predicate IsNameLevel(levels: map<int, string>, name: string, level: int) {
    if exists k :: k in levels && levels[k] == name then level in levels && levels[level] == name
    else level == PrefixLevel(name)
  }

  /** No two registered levels share a name. */
  ghost predicate NamesDistinct(levels: map<int, string>) {
    forall j, k :: j in levels && k in levels && j != k ==> levels[j] != levels[k]
  }

  /** Reverse lookup: scans the registry, then parses a "LEVEL<n>" name. */
  method NameLevel(levels: map<int, string>, name: string) returns (level: int)
    ensures IsNameLevel(levels, name, level)
  {
    var todo := levels.Keys;
    while todo != {}
      invariant todo <= levels.Keys
      invariant forall k :: k in levels && k !in todo ==> levels[k] != name
      decreases todo
    {
      ghost var member := SomeElement(todo);  // shows the choice below has a candidate
      var k :| k in todo;
      if levels[k] == name {
        return k;
      }
      todo := todo - {k};
    }
    level := 0;
    if HasPrefix(name, NamePrefix) {
      level := Atoi(name[|NamePrefix|..]).0;
    }
  }

  /**
   * NameLevel inverts LevelName: for a registered level whose name is
   * not shared, and for an unregistered level whose synthetic name no
   * registered level uses.
   */
  lemma NameLevelInvertsLevelName(levels: map<int, string>, level: int, back: int)
    requires IsInt64(level)
    requires level in levels ==> forall k :: k in levels && k != level ==> levels[k] != levels[level]
    requires level !in levels ==> forall k :: k in levels ==> levels[k] != LevelName(levels, level)
    requires IsNameLevel(levels, LevelName(levels, level), back)
    ensures back == level
  {
  }

  /** Rewriting every name as open + name + close keeps distinct names distinct. */
  lemma {:induction false} DecorationKeepsNamesDistinct(
    levels: map<int, string>, decorated: map<int, string>, open: string, close: string)
    requires NamesDistinct(levels)
    requires decorated.Keys == levels.Keys
    requires forall k :: k in levels ==> decorated[k] == open + levels[k] + close
    ensures NamesDistinct(decorated)
  {
    forall j, k | j in decorated && k in decorated && j != k
      ensures decorated[j] != decorated[k]
    {
      if decorated[j] == decorated[k] {
        DecorationIsInjective(open, close, levels[j], levels[k]);
      }
    }
  }

  lemma DecorationIsInjective(open: string, close: string, a: string, b: string)
    requires open + a + close == open + b + close
    ensures a == b
  {
    assert |a| == |b|;
    assert a == (open + a + close)[|open|..|open| + |a|];
  }

  /** The registry of level names, a map the package rewrites in place. */
  class Registry {
    var levels: map<int, string>

    constructor ()
      ensures levels == DefaultLevels()
    {
      levels := DefaultLevels();
    }

    /** Wraps every registered name in square brackets. */
    method AddBracket()
      modifies this
      ensures levels.Keys == old(levels).Keys
      ensures forall k :: k in levels ==> levels[k] == "[" + old(levels)[k] + "]"
    {
      ghost var before := levels;
      var todo := levels.Keys;
      while todo != {}
        invariant todo <= before.Keys && levels.Keys == before.Keys
        invariant forall k :: k in levels ==> levels[k] == if k in todo then before[k] else "[" + before[k] + "]"
        decreases todo
      {
        ghost var member := SomeElement(todo);  // shows the choice below has a candidate
        var k :| k in todo;
        levels := levels[k := "[" + levels[k] + "]"];
        todo := todo - {k};
      }
    }

    /** Appends a colon to every registered name. */
    method AddColon()
      modifies this
      ensures levels.Keys == old(levels).Keys
      ensures forall k :: k in levels ==> levels[k] == old(levels)[k] + ":"
    {
      ghost var before := levels;
      var todo := levels.Keys;
      while todo != {}
        invariant todo <= before.Keys && levels.Keys == before.Keys
        invariant forall k :: k in levels ==> levels[k] == if k in todo then before[k] else before[k] + ":"
        decreases todo
      {
        ghost var member := SomeElement(todo);  // shows the choice below has a candidate
        var k :| k in todo;
        levels := levels[k := levels[k] + ":"];
        todo := todo - {k};
      }
    }

    /** Registers `name` for `level`; every other entry stays as it was. */
    method SetLevelName(level: int, name: string)
      modifies this
      ensures levels == old(levels)[level := name]
      ensures LevelName(levels, level) == name
      ensures forall k :: k != level ==> LevelName(levels, k) == LevelName(old(levels), k)
    {
      levels := levels[level := name];
    }
  }

  /** A message passes the threshold when its level is at least the logger's. */
  predicate Passes(level: int, threshold: int) {
    level >= threshold
  }

  /**
   * A leveled logger. Its output lines are what it hands to the standard
   * library logger: the level's name, a space, and the message.
   */
  class Logger {
    var level: int

    /** New: the output, prefix and flags go to the standard library logger. */
    constructor (level: int)
      ensures this.level == level
    {
      this.level := level;
    }

    method Level() returns (threshold: int)
      ensures threshold == level
    {
      threshold := level;
    }

    method SetLevel(level: int)
      modifies this
      ensures this.level == level
    {
      this.level := level;
    }

    /** Err logs a non-nil error at `level` when the level passes the threshold. */
    method Err(levels: map<int, string>, level: int, err: Option<string>) returns (line: Option<string>)
      ensures line.Some? <==> err.Some? && Passes(level, this.level)
      ensures line.Some? ==> line.value == LevelName(levels, level) + " " + err.value
    {
      line := None;
      if err.Some? && level >= this.level {
        line := Some(LevelName(levels, level) + " " + err.value);
      }
    }

    /**
     * Output, Outputf and Outputln: `msg` is the text fmt.Sprint,
     * fmt.Sprintf or fmt.Sprintln made of the arguments.
     */
    method Output(levels: map<int, string>, level: int, msg: string) returns (line: Option<string>)
      ensures line.Some? <==> Passes(level, this.level)
      ensures line.Some? ==> line.value == LevelName(levels, level) + " " + msg
    {
      line := None;
      if level >= this.level {
        line := Some(LevelName(levels, level) + " " + msg);
      }
    }

    /** Panic, Panicf and Panicln: log at LevelPanic if it passes, then always panic with the message. */
    method Panic(levels: map<int, string>, msg: string) returns (line: Option<string>, panicValue: string)
      ensures panicValue == msg
      ensures line.Some? <==> Passes(LevelPanic, this.level)
      ensures line.Some? ==> line.value == LevelName(levels, LevelPanic) + " " + msg
    {
      line := None;
      if LevelPanic >= this.level {
        line := Some(LevelName(levels, LevelPanic) + " " + msg);
      }
      panicValue := msg;
    }

    /** ErrPanic: a non-nil error is logged at LevelPanic if that passes, and then always panics. */
    method ErrPanic(levels: map<int, string>, err: Option<string>) returns (line: Option<string>, panicValue: Option<string>)
      ensures panicValue == err
      ensures line.Some? <==> err.Some? && Passes(LevelPanic, this.level)
      ensures line.Some? ==> line.value == LevelName(levels, LevelPanic) + " " + err.value
    {
      line := Err(levels, LevelPanic, err);
      panicValue := err;
    }

    /** ErrFatal: a non-nil error is logged at LevelFatal if that passes, and then always exits the process. */
    method ErrFatal(levels: map<int, string>, err: Option<string>) returns (line: Option<string>, exits: bool)
      ensures exits <==> err.Some?
      ensures line.Some? <==> err.Some? && Passes(LevelFatal, this.level)
      ensures line.Some? ==> line.value == LevelName(levels, LevelFatal) + " " + err.value
    {
      line := Err(levels, LevelFatal, err);
      exits := err.Some?;
    }

    /** Fatal, Fatalf and Fatalln: log at LevelFatal if it passes, then always exit. */
    method Fatal(levels: map<int, string>, msg: string) returns (line: Option<string>, exits: bool)
      ensures exits
      ensures line.Some? <==> Passes(LevelFatal, this.level)
      ensures line.Some? ==> line.value == LevelName(levels, LevelFatal) + " " + msg
    {
      line := Output(levels, LevelFatal, msg);
      exits := true;
    }
  }
}
