/**
 The namespaced logger of logger/logger.go. A logger has a namespace and a
 pointer to a level cell; children share their parent's cell, so setting
 the level through any of them changes it for all. Only the decision of
 whether and with which tag a line is printed is modelled, and the line
 itself without printf-style argument substitution.
 */
module Logger {
  import Base

  /** The levels, in increasing severity (Go's iota from DEBUG to ERROR). */
  const DebugLevel := 0
  const InfoLevel := 1
  const NoticeLevel := 2
  const WarningLevel := 3
  const ErrorLevel := 4

  /** The five logging methods, each with the level it passes to doLog. */
  datatype Severity = Debug | Info | Notice | Warning | Error {
    function Level(): (l: int)
      ensures DebugLevel <= l <= ErrorLevel
    {
      match this
      case Debug => DebugLevel
      case Info => InfoLevel
      case Notice => NoticeLevel
      case Warning => WarningLevel
      case Error => ErrorLevel
    }
  }

  /** Distinct methods log at distinct levels, ordered Debug, Info, Notice, Warning, Error. */
  lemma LevelsOrdered(a: Severity, b: Severity)
    ensures a.Level() == b.Level() <==> a == b
    ensures Debug.Level() < Info.Level() < Notice.Level() < Warning.Level() < Error.Level()
  {
  }

  /** The level cell a family of loggers shares (Go's *int). */
  class LevelCell {
    var level: int

    constructor(level: int)
      ensures this.level == level
    {
      this.level := level;
    }
  }

  /** A namespaced logger: its rendered namespace and the cell holding its threshold. */
  datatype NsLogger = NsLogger(ns: string, cell: LevelCell)

  /** NewLogger: the namespace in brackets, with a new cell at DEBUG, so that everything is printed. */
  method NewLogger(ns: string) returns (l: NsLogger)
    ensures l.ns == "[" + ns + "]"
    ensures fresh(l.cell)
    ensures l.cell.level == DebugLevel
    ensures forall s: Severity :: Admits(l.cell.level, s.Level())
  {
    var cell := new LevelCell(DebugLevel);
    l := NsLogger("[" + ns + "]", cell);
  }

  /** CreateChild: the parent's namespace followed by " [ns]", sharing the parent's cell. */
  function CreateChild(parent: NsLogger, ns: string): (child: NsLogger)
    ensures child.cell == parent.cell
    ensures parent.ns <= child.ns
    ensures child.ns[|parent.ns|..] == " [" + ns + "]"
  {
    NsLogger(parent.ns + " [" + ns + "]", parent.cell)
  }

  /** The logger reached by creating children along `path`, one level per name. */
  function Descend(l: NsLogger, path: seq<string>): NsLogger
    decreases |path|
  {
    if |path| == 0 then l else Descend(CreateChild(l, path[0]), path[1..])
  }

  /** The suffix a path of children adds to a namespace. */
  function Suffix(path: seq<string>): string
    decreases |path|
  {
    if |path| == 0 then "" else " [" + path[0] + "]" + Suffix(path[1..])
  }

  /** Any descendant shares the root's cell, and its namespace is the root's followed by one " [name]" per step. */
  lemma {:induction false} DescendShares(l: NsLogger, path: seq<string>)
    ensures Descend(l, path).cell == l.cell
    ensures Descend(l, path).ns == l.ns + Suffix(path)
    decreases |path|
  {
    if |path| > 0 {
      DescendShares(CreateChild(l, path[0]), path[1..]);
    }
  }

  /** SetLevel: sets the threshold in the shared cell. */
  method SetLevel(l: NsLogger, level: int)
    modifies l.cell
    ensures l.cell.level == level
  {
    l.cell.level := level;
  }

  /** Two root loggers have cells of their own: setting the level of one leaves the other at DEBUG. */
  method IndependentRoots(x: string, y: string, level: int) returns (a: NsLogger, b: NsLogger)
    ensures a.cell != b.cell
    ensures a.cell.level == level && b.cell.level == DebugLevel
  {
    a := NewLogger(x);
    b := NewLogger(y);
    SetLevel(a, level);
  }

  /** Setting the level on a child changes what its parent admits too. */
  method SetThroughChild(parent: NsLogger, name: string, level: int) returns (child: NsLogger)
    modifies parent.cell
    ensures child.cell == parent.cell && parent.cell.level == level
  {
    child := CreateChild(parent, name);
    SetLevel(child, level);
  }

  /** doLog prints a line unless the configured level is above the line's level. */
  predicate Admits(threshold: int, level: int) {
    !(threshold > level)
  }

  /** The tag of a level: its own name for the five levels, [CONSOLE] for any other value. */
  function Tag(level: int): (t: string)
    ensures DebugLevel <= level <= ErrorLevel ==> t != "[CONSOLE]"
    ensures !(DebugLevel <= level <= ErrorLevel) ==> t == "[CONSOLE]"
  {
    if level == DebugLevel then "[DEBUG]"
    else if level == InfoLevel then "[INFO]"
    else if level == NoticeLevel then "[NOTICE]"
    else if level == WarningLevel then "[WARNING]"
    else if level == ErrorLevel then "[ERROR]"
    else "[CONSOLE]"
  }

  /** Different levels get different tags, unless both fall outside the five. */
  lemma TagsDistinct(a: int, b: int)
    requires a != b && (DebugLevel <= a <= ErrorLevel || DebugLevel <= b <= ErrorLevel)
    ensures Tag(a) != Tag(b)
  {
    assert "[DEBUG]"[1] == 'D' && "[INFO]"[1] == 'I' && "[NOTICE]"[1] == 'N';
    assert "[WARNING]"[1] == 'W' && "[ERROR]"[1] == 'E' && "[CONSOLE]"[1] == 'C';
  }

  /** The ANSI colour the tag is printed in. */
  function Colour(level: int): string {
    if level == DebugLevel then "\U{1B}[0;36m"
    else if level == InfoLevel then "\U{1B}[1;34m"
    else if level == NoticeLevel then "\U{1B}[1;36m"
    else if level == WarningLevel then "\U{1B}[1;33m"
    else if level == ErrorLevel then "\U{1B}[1;31m"
    else "\U{1B}[1;37m"
  }

  const Reset := "\U{1B}[0m"

  /**
   doLog: nothing when the threshold is above the level; otherwise the
   coloured tag, the namespace and the message on one line.
   */
  function Line(threshold: int, ns: string, level: int, message: string): (r: Base.Option<string>)
    ensures r.Some? <==> Admits(threshold, level)
    ensures r.Some? ==> Colour(level) + Tag(level) <= r.value
  {
    if threshold > level then Base.None
    else Base.Some(Colour(level) + Tag(level) + Reset + " " + ns + " " + message + "\n")
  }

  /** The five methods print every line their threshold admits, and never with the [CONSOLE] tag. */
  lemma MethodsUseOwnTag(threshold: int, ns: string, s: Severity, message: string)
    requires Admits(threshold, s.Level())
    ensures Line(threshold, ns, s.Level(), message).Some?
    ensures Tag(s.Level()) != "[CONSOLE]"
  {
  }
}
