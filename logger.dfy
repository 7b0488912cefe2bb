/** Logger (Logger.h/.cpp): the process-wide logger slot, the level labels,
    and the tree-style scope prefix. What Log writes to the console and the
    log file is kept as the sequence of formatted lines `output`; the
    console, the file and the timestamp are outside the model. */
module Logging {
  import opened Wrappers

  datatype IndentStyle = Unicode | Ascii
  datatype LogLevel = Info | Warning | Error | Success | Fail | Print
  /** The runtime_error thrown by Get before Initialize. */
  datatype LoggerError = NotInitialized

  /** The fixed 10-character label of each level. */
  function LevelLabel(level: LogLevel): (r: string)
    ensures |r| == 10
  {
    match level
    case Info => "[INFO]    "
    case Warning => "[WARNING] "
    case Error => "[ERROR]   "
    case Success => "[SUCCESS] "
    case Fail => "[FAIL]    "
    case Print => "          "
  }

  /** Distinct levels have distinct labels, and only Print is blank. */
  lemma LevelLabelsDistinct(a: LogLevel, b: LogLevel)
    ensures a != b ==> LevelLabel(a) != LevelLabel(b)
    ensures LevelLabel(a) == "          " <==> a == Print
  {
    if a != b {
      assert LevelLabel(a)[1] != LevelLabel(b)[1];
    }
    if a != Print {
      assert LevelLabel(a)[0] == '[';
    }
  }

  /** The four-column tree segments: a vertical guide, a tee, an elbow,
      and blanks. */
  function Vertical(style: IndentStyle): (r: string)
    ensures |r| == 4
  {
    if style == Unicode then "\U{2502}   " else "|   "
  }

  function Tee(style: IndentStyle): (r: string)
    ensures |r| == 4
  {
    if style == Unicode then "\U{251C}\U{2500}\U{2500} " else "|-- "
  }

  function Elbow(style: IndentStyle): (r: string)
    ensures |r| == 4
  {
    if style == Unicode then "\U{2514}\U{2500}\U{2500} " else "`-- "
  }

  const Blank: string := "    "

  /** An ancestor level's segment, also used for the innermost level on a
      regular line. */
  function Guide(hasNext: bool, style: IndentStyle): (r: string)
    ensures |r| == 4
  {
    if hasNext then Vertical(style) else Blank
  }

  /** The innermost level's segment. */
  function TopSegment(hasNext: bool, isNodeLine: bool, style: IndentStyle): (r: string)
    ensures |r| == 4
  {
    if isNodeLine then (if hasNext then Tee(style) else Elbow(style)) else Guide(hasNext, style)
  }

  /** The guides for a list of levels, one segment each. */
  function Guides(levels: seq<bool>, style: IndentStyle): (r: string)
    ensures |r| == 4 * |levels|
  {
    if |levels| == 0 then "" else Guides(levels[..|levels| - 1], style) + Guide(levels[|levels| - 1], style)
  }

  /** A slice that ends inside the left operand of a concatenation. */
  lemma SliceOfLeft(a: string, b: string, lo: nat, hi: nat)
    requires lo <= hi <= |a|
    ensures (a + b)[lo..hi] == a[lo..hi]
  {
    forall k | 0 <= k < hi - lo ensures (a + b)[lo..hi][k] == a[lo..hi][k] {
      assert (a + b)[lo + k] == a[lo + k];
    }
  }

  /** The suffix of a concatenation that starts where the right operand does. */
  lemma SliceOfRight(a: string, b: string)
    ensures (a + b)[|a|..] == b
  {
  }

  /** The segment of level i sits at columns 4i .. 4i+3. */
  lemma {:induction false} GuidesSegment(levels: seq<bool>, style: IndentStyle, i: nat)
    requires i < |levels|
    ensures Guides(levels, style)[4 * i .. 4 * i + 4] == Guide(levels[i], style)
    decreases |levels|
  {
    var n := |levels| - 1;
    var g := Guides(levels[..n], style);
    var last := Guide(levels[n], style);
    assert Guides(levels, style) == g + last;
    if i < n {
      GuidesSegment(levels[..n], style, i);
      SliceOfLeft(g, last, 4 * i, 4 * i + 4);
    } else {
      SliceOfRight(g, last);
      assert (g + last)[4 * i ..] == (g + last)[4 * i .. 4 * i + 4];
    }
  }

  /** BuildPrefix's result: empty with no open scope, otherwise the
      ancestors' guides followed by the innermost level's segment. */
  function Prefix(scope: seq<bool>, isNodeLine: bool, style: IndentStyle): string {
    if |scope| == 0 then ""
    else Guides(scope[..|scope| - 1], style) + TopSegment(scope[|scope| - 1], isNodeLine, style)
  }

  /** One four-column segment per open scope: ancestors contribute a guide
      or blanks by their hasNext flag, the innermost a tee or elbow on node
      lines and a guide or blanks on regular lines. */
  lemma PrefixShape(scope: seq<bool>, isNodeLine: bool, style: IndentStyle)
    ensures |scope| == 0 ==> Prefix(scope, isNodeLine, style) == ""
    ensures |Prefix(scope, isNodeLine, style)| == 4 * |scope|
    ensures forall i :: 0 <= i < |scope| - 1 ==>
      Prefix(scope, isNodeLine, style)[4 * i .. 4 * i + 4] == Guide(scope[i], style)
    ensures |scope| > 0 ==>
      Prefix(scope, isNodeLine, style)[4 * (|scope| - 1)..] == TopSegment(scope[|scope| - 1], isNodeLine, style)
  {
    if |scope| > 0 {
      var n := |scope| - 1;
      var g := Guides(scope[..n], style);
      var top := TopSegment(scope[n], isNodeLine, style);
      assert Prefix(scope, isNodeLine, style) == g + top;
      forall i | 0 <= i < n ensures (g + top)[4 * i .. 4 * i + 4] == Guide(scope[i], style) {
        GuidesSegment(scope[..n], style, i);
        SliceOfLeft(g, top, 4 * i, 4 * i + 4);
      }
      SliceOfRight(g, top);
    }
  }

  /** The legacy tab indentation: `count` tab characters. */
  function Tabs(count: nat): (r: string)
    ensures |r| == count && forall k :: 0 <= k < count ==> r[k] == '\t'
  {
    if count == 0 then "" else Tabs(count - 1) + "\t"
  }

  /** The line Log writes: tree prefix of a regular line, tabs, label,
      message, newline. */
  function FormatLine(scope: seq<bool>, style: IndentStyle, tabs: nat, level: LogLevel, msg: string): string {
    Prefix(scope, false, style) + Tabs(tabs) + LevelLabel(level) + msg + "\n"
  }

  /** A logged line is the regular-line prefix, then `tabs` tab characters,
      then the level's label and the message, and ends with one newline. */
  lemma FormatLineShape(scope: seq<bool>, style: IndentStyle, tabs: nat, level: LogLevel, msg: string)
    ensures var line := FormatLine(scope, style, tabs, level, msg);
      var p := 4 * |scope|;
      var m := p + tabs + |LevelLabel(level)|;
      && |line| == m + |msg| + 1
      && line[..p] == Prefix(scope, false, style)
      && (forall k :: p <= k < p + tabs ==> line[k] == '\t')
      && line[p + tabs .. m] == LevelLabel(level)
      && line[m .. m + |msg|] == msg
      && line[|line| - 1] == '\n'
  {
    PrefixShape(scope, false, style);
    var pre := Prefix(scope, false, style);
    var t := Tabs(tabs);
    var line := pre + t + LevelLabel(level) + msg + "\n";
    assert line == FormatLine(scope, style, tabs, level, msg);
    assert forall k :: |pre| <= k < |pre| + tabs ==> line[k] == t[k - |pre|];
  }

  class Logger {
    /** m_scopeHasNext: one hasNext flag per open scope, innermost last. */
    var scopeHasNext: seq<bool>
    var indentStyle: IndentStyle
    var terminalEnabled: bool
    /** Every line handed to the console and the log file, in order. */
    var output: seq<string>

    constructor (enableTerminal: bool)
      ensures scopeHasNext == [] && indentStyle == Unicode
      ensures terminalEnabled == enableTerminal && output == []
    {
      scopeHasNext := [];
      indentStyle := Unicode;
      terminalEnabled := enableTerminal;
      output := [];
    }

    /** BuildPrefix. */
    method BuildPrefix(isNodeLine: bool) returns (pre: string)
      ensures pre == Prefix(scopeHasNext, isNodeLine, indentStyle)
    {
      pre := "";
      if |scopeHasNext| > 0 {
        var i := 0;
        while i + 1 < |scopeHasNext|
          invariant 0 <= i <= |scopeHasNext| - 1
          invariant pre == Guides(scopeHasNext[..i], indentStyle)
        {
          assert scopeHasNext[..i + 1][..i] == scopeHasNext[..i];
          pre := pre + Guide(scopeHasNext[i], indentStyle);
          i := i + 1;
        }
        pre := pre + TopSegment(scopeHasNext[|scopeHasNext| - 1], isNodeLine, indentStyle);
      }
    }

    /** Log: format one line at the current depth and write it out. */
    method Log(level: LogLevel, msg: string, tabs: nat)
      modifies this
      ensures output == old(output) + [FormatLine(scopeHasNext, indentStyle, tabs, level, msg)]
      ensures scopeHasNext == old(scopeHasNext) && indentStyle == old(indentStyle)
      ensures terminalEnabled == old(terminalEnabled)
    {
      var treePrefix := BuildPrefix(false);
      output := output + [treePrefix + Tabs(tabs) + LevelLabel(level) + msg + "\n"];
    }

    /** BeginScopeImpl: the header is logged at the parent depth, as a Print
      line whose message is the node prefix and the name; then exactly one
      level is pushed. */
    method BeginScopeImpl(name: string, hasNextSibling: bool, tabs: nat)
      modifies this
      ensures output == old(output) + [FormatLine(old(scopeHasNext), indentStyle, tabs, Print,
                                                  Prefix(old(scopeHasNext), true, indentStyle) + name)]
      ensures scopeHasNext == old(scopeHasNext) + [hasNextSibling]
      ensures indentStyle == old(indentStyle) && terminalEnabled == old(terminalEnabled)
    {
      var nodePrefix := BuildPrefix(true);
      Log(Print, nodePrefix + name, tabs);
      scopeHasNext := scopeHasNext + [hasNextSibling];
    }

    /** EndScopeImpl: pop one level, nothing on an empty stack. */
    method EndScopeImpl()
      modifies this
      ensures |old(scopeHasNext)| == 0 ==> scopeHasNext == []
      ensures |old(scopeHasNext)| > 0 ==> scopeHasNext == old(scopeHasNext)[..|old(scopeHasNext)| - 1]
      ensures output == old(output) && indentStyle == old(indentStyle) && terminalEnabled == old(terminalEnabled)
    {
      if |scopeHasNext| > 0 {
        scopeHasNext := scopeHasNext[..|scopeHasNext| - 1];
      }
    }
  }

  /** A scope header for a level that has a next sibling ends in a tee, for
      the last sibling in an elbow. */
  lemma HeaderSegment(scope: seq<bool>, hasNext: bool, style: IndentStyle)
    requires |scope| > 0
    ensures var p := Prefix(scope, true, style);
      p[|p| - 4..] == (if scope[|scope| - 1] then Tee(style) else Elbow(style))
  {
    PrefixShape(scope, true, style);
  }

  /** The static side of Logger: the unique_ptr slot and the tab counter
      (a uint8_t that wraps on increment and stops at zero on decrement). */
  class LoggerStatics {
    var instance: Logger?
    var tabs: nat

    constructor ()
      ensures instance == null && tabs == 0
    {
      instance := null;
      tabs := 0;
    }

    predicate IsInitialized()
      reads this
    {
      instance != null
    }

    /** Initialize: create the logger only if there is none, so a second
      call keeps the first. */
    method Initialize(enableTerminal: bool)
      modifies this
      ensures old(instance) != null ==> instance == old(instance)
      ensures old(instance) == null ==>
        (instance != null && fresh(instance)
         && instance.scopeHasNext == [] && instance.output == [] && instance.terminalEnabled == enableTerminal)
      ensures tabs == old(tabs)
    {
      if instance == null {
        instance := new Logger(enableTerminal);
      }
    }

    method Terminate()
      modifies this
      ensures instance == null && tabs == old(tabs)
    {
      instance := null;
    }

    /** Get: the logger, or the error thrown when uninitialised. */
    function Get(): (r: Result<Logger, LoggerError>)
      reads this
      ensures r.Err? <==> !IsInitialized()
      ensures r.Ok? ==> r.value == instance
    {
      if instance == null then Err(NotInitialized) else Ok(instance)
    }

    /** The static Info/Warning/Error/Success/Fail/Print front ends: nothing
      happens before Initialize. */
    method Write(level: LogLevel, msg: string)
      modifies instance
      ensures instance != null ==>
        && instance.output == old(instance.output) + [FormatLine(instance.scopeHasNext, instance.indentStyle, tabs, level, msg)]
        && instance.scopeHasNext == old(instance.scopeHasNext) && instance.indentStyle == old(instance.indentStyle)
    {
      if instance == null {
        return;
      }
      instance.Log(level, msg, tabs);
    }

    /** The static BeginScope: goes through Get, so it throws before
      Initialize. */
    method BeginScope(name: string, hasNextSibling: bool) returns (r: Result<bool, LoggerError>)
      modifies instance
      ensures r.Err? <==> instance == null
      ensures instance != null ==>
        && instance.output == old(instance.output) +
             [FormatLine(old(instance.scopeHasNext), instance.indentStyle, tabs, Print,
                         Prefix(old(instance.scopeHasNext), true, instance.indentStyle) + name)]
        && instance.scopeHasNext == old(instance.scopeHasNext) + [hasNextSibling]
        && instance.indentStyle == old(instance.indentStyle)
    {
      if instance == null {
        return Err(NotInitialized);
      }
      instance.BeginScopeImpl(name, hasNextSibling, tabs);
      return Ok(true);
    }

    /** The static EndScope, also through Get: pops one level, and with no
      scope open changes nothing; no line is written. */
    method EndScope() returns (r: Result<bool, LoggerError>)
      modifies instance
      ensures r.Err? <==> instance == null
      ensures instance != null && |old(instance.scopeHasNext)| > 0 ==>
        instance.scopeHasNext == old(instance.scopeHasNext)[..|old(instance.scopeHasNext)| - 1]
      ensures instance != null && |old(instance.scopeHasNext)| == 0 ==> instance.scopeHasNext == []
      ensures instance != null ==>
        instance.output == old(instance.output) && instance.indentStyle == old(instance.indentStyle)
    {
      if instance == null {
        return Err(NotInitialized);
      }
      instance.EndScopeImpl();
      return Ok(true);
    }

    /** SetIndentStyle, through Get as well: the style of later prefixes
      changes, the open scopes and the lines written do not. */
    method SetIndentStyle(style: IndentStyle) returns (r: Result<bool, LoggerError>)
      modifies instance
      ensures r.Err? <==> instance == null
      ensures instance != null ==>
        && instance.indentStyle == style
        && instance.scopeHasNext == old(instance.scopeHasNext) && instance.output == old(instance.output)
    {
      if instance == null {
        return Err(NotInitialized);
      }
      instance.indentStyle := style;
      return Ok(true);
    }

    method IncreaseTab()
      modifies this
      ensures tabs == (old(tabs) + 1) % 256 && instance == old(instance)
    {
      tabs := (tabs + 1) % 256;
    }

    method DecreaseTab()
      modifies this
      ensures tabs == (if old(tabs) > 0 then old(tabs) - 1 else 0) && instance == old(instance)
    {
      if tabs > 0 {
        tabs := tabs - 1;
      }
    }
  }
}
