/**
 * The back-slice starting point of `BrepairFaitManager.getBackSliceStart`: the
 * failing test's stack trace is split into tokens, the first token names the
 * exception, and every later token that (once trimmed) matches the frame pattern
 * becomes a frame of the `STACKSTART` request.
 */
module StackTrace {
  import opened Wrappers
  import opened Strings

  // ---------------------------------------------------------------------------
  // StringTokenizer(stack, "\n\t")
  // ---------------------------------------------------------------------------

  predicate Delim(c: char) {
    c == '\n' || c == '\t'
  }

  predicate NoDelim(s: string) {
    forall i :: 0 <= i < |s| ==> !Delim(s[i])
  }

  /** Length of the run of non-delimiters that starts `s`. */
  function TokenLength(s: string): (n: nat)
    ensures n <= |s|
    ensures forall i :: 0 <= i < n ==> !Delim(s[i])
    ensures n == |s| || Delim(s[n])
    decreases |s|
  {
    if |s| == 0 || Delim(s[0]) then 0 else 1 + TokenLength(s[1..])
  }

  lemma {:induction false} TokenLengthOfConcat(t: string, rest: string)
    requires NoDelim(t)
    requires |rest| == 0 || Delim(rest[0])
    ensures TokenLength(t + rest) == |t|
    decreases |t|
  {
    if |t| > 0 {
      assert (t + rest)[0] == t[0];
      assert (t + rest)[1..] == t[1..] + rest;
      TokenLengthOfConcat(t[1..], rest);
    } else {
      assert t + rest == rest;
    }
  }

  /** The tokens `StringTokenizer` yields: the maximal runs between delimiters, empty ones dropped. */
  function Tokenize(s: string): (r: seq<string>)
    ensures forall i :: 0 <= i < |r| ==> |r[i]| > 0 && NoDelim(r[i])
    decreases |s|
  {
    if |s| == 0 then []
    else if Delim(s[0]) then Tokenize(s[1..])
    else
      var n := TokenLength(s);
      [s[..n]] + Tokenize(s[n..])
  }

  /** A delimiter separates: the tokens of `a + [d] + b` are those of `a` followed by those of `b`. */
  lemma {:induction false} TokenizeSplit(a: string, d: char, b: string)
    requires Delim(d)
    ensures Tokenize(a + [d] + b) == Tokenize(a) + Tokenize(b)
    decreases |a|
  {
    var s := a + [d] + b;
    if |a| == 0 {
      assert s[1..] == b;
    } else if Delim(a[0]) {
      assert s[1..] == a[1..] + [d] + b;
      TokenizeSplit(a[1..], d, b);
    } else {
      var n := TokenLength(a);
      var rest := a[n..] + [d] + b;
      assert s == a[..n] + rest;
      TokenLengthOfConcat(a[..n], rest);
      assert s[..n] == a[..n] && s[n..] == rest;
      TokenizeSplit(a[n..], d, b);
    }
  }

  /** A non-empty run without delimiters is a single token. */
  lemma TokenizeWhole(t: string)
    requires |t| > 0 && NoDelim(t)
    ensures Tokenize(t) == [t]
  {
    TokenLengthOfConcat(t, "");
    assert t + "" == t;
    assert t[..|t|] == t && t[|t|..] == [];
  }

  /** A run without delimiters joined to the rest by a delimiter is one token. */
  lemma TokenizeCons(t: string, d: char, b: string)
    requires |t| > 0 && NoDelim(t) && Delim(d)
    ensures Tokenize(t + [d] + b) == [t] + Tokenize(b)
  {
    TokenizeSplit(t, d, b);
    TokenizeWhole(t);
  }

  // ---------------------------------------------------------------------------
  // The frame pattern  at ([a-zA-z0-9_.$]+)\(([A-Za-z0-9_.$]+)\:([0-9]+)\)
  // ---------------------------------------------------------------------------

  /** The character classes of the pattern's three groups. */
  datatype CharClass = MethodClass | FileClass | DigitClass

  /**
   * The class of each group. The first group's range `A-z` runs from U+0041 to
   * U+007A, so besides the letters it admits `[`, `\`, `]`, `^`, `_` and the backtick.
   */
  predicate InClass(c: char, k: CharClass) {
    match k
    case MethodClass => ('a' <= c <= 'z') || ('A' <= c <= 'z') || IsDigit(c) || c == '_' || c == '.' || c == '$'
    case FileClass => ('A' <= c <= 'Z') || ('a' <= c <= 'z') || IsDigit(c) || c == '_' || c == '.' || c == '$'
    case DigitClass => IsDigit(c)
  }

  predicate AllIn(s: string, k: CharClass) {
    forall i :: 0 <= i < |s| ==> InClass(s[i], k)
  }

  /** Length of the run of class `k` that starts `s`. */
  function Run(s: string, k: CharClass): (n: nat)
    ensures n <= |s|
    ensures forall i :: 0 <= i < n ==> InClass(s[i], k)
    ensures n == |s| || !InClass(s[n], k)
    decreases |s|
  {
    if |s| == 0 || !InClass(s[0], k) then 0 else 1 + Run(s[1..], k)
  }

  lemma {:induction false} RunOfConcat(g: string, rest: string, k: CharClass)
    requires AllIn(g, k)
    requires |rest| == 0 || !InClass(rest[0], k)
    ensures Run(g + rest, k) == |g|
    decreases |g|
  {
    if |g| > 0 {
      assert (g + rest)[0] == g[0];
      assert (g + rest)[1..] == g[1..] + rest;
      RunOfConcat(g[1..], rest, k);
    } else {
      assert g + rest == rest;
    }
  }

  /** A run of the digit class is a run of decimal digits. */
  lemma DigitRun(s: string)
    requires AllIn(s, DigitClass)
    ensures AllDigits(s)
  {
    forall i | 0 <= i < |s|
      ensures IsDigit(s[i])
    {
      assert InClass(s[i], DigitClass);
    }
  }

  /** The three groups of a matched frame, as text. */
  datatype FrameText = FrameText(mname: string, file: string, line: string)

  /** `s` is exactly the frame pattern with groups `f`: the declarative reading of `Matcher.matches`. */
  predicate FrameShaped(s: string, f: FrameText) {
    && |f.mname| > 0 && AllIn(f.mname, MethodClass)
    && |f.file| > 0 && AllIn(f.file, FileClass)
    && |f.line| > 0 && AllIn(f.line, DigitClass)
    && s == "at " + (f.mname + ("(" + (f.file + (":" + (f.line + ")")))))
  }

  /** One group of the pattern and the character after it: a non-empty run of `k` ended by `stop`, and the text after `stop`. */
  datatype Split = Split(group: string, rest: string)

  function MatchGroup(s: string, k: CharClass, stop: char): (r: Option<Split>)
    ensures r.Some? ==> |r.value.group| > 0 && AllIn(r.value.group, k) && s == r.value.group + ([stop] + r.value.rest)
  {
    var n := Run(s, k);
    if n == 0 || n == |s| || s[n] != stop then None
    else
      assert s == s[..n] + ([stop] + s[n + 1..]);
      Some(Split(s[..n], s[n + 1..]))
  }

  /** A group of the class followed by a stop character outside the class always matches, with that group. */
  lemma MatchGroupComplete(g: string, k: CharClass, stop: char, rest: string)
    requires |g| > 0 && AllIn(g, k) && !InClass(stop, k)
    ensures MatchGroup(g + ([stop] + rest), k, stop) == Some(Split(g, rest))
  {
    var s := g + ([stop] + rest);
    RunOfConcat(g, [stop] + rest, k);
    assert s[..|g|] == g && s[|g| + 1..] == rest;
  }

  /** The end of the pattern, `([0-9]+)\)`, which must reach the end of the string. */
  function MatchLine(w: string): Option<string> {
    var m := MatchGroup(w, DigitClass, ')');
    if m.None? || m.value.rest != "" then None else Some(m.value.group)
  }

  /** `([A-Za-z0-9_.$]+)\:` followed by the end of the pattern: the file and line groups. */
  function MatchFileLine(v: string): Option<(string, string)> {
    var m := MatchGroup(v, FileClass, ':');
    if m.None? then None
    else
      var l := MatchLine(m.value.rest);
      if l.None? then None else Some((m.value.group, l.value))
  }

  /** The pattern after `at `: the method group, `\(`, then the file and line groups. */
  function MatchCall(t: string): Option<FrameText> {
    var m := MatchGroup(t, MethodClass, '(');
    if m.None? then None
    else
      var fl := MatchFileLine(m.value.rest);
      if fl.None? then None else Some(FrameText(m.value.group, fl.value.0, fl.value.1))
  }

  /**
   * `STACK_PATTERN.matcher(s).matches()` with its groups. Each group is the longest
   * run of its class, because the character after it (`(`, `:`, `)`) is outside the class.
   */
  function MatchFrame(s: string): Option<FrameText> {
    if |s| < 3 || s[..3] != "at " then None else MatchCall(s[3..])
  }

  lemma MatchLineSound(w: string)
    ensures MatchLine(w).Some? ==> |MatchLine(w).value| > 0 && AllIn(MatchLine(w).value, DigitClass)
    ensures MatchLine(w).Some? ==> w == MatchLine(w).value + ")"
  {
    var m := MatchGroup(w, DigitClass, ')');
    if m.Some? && m.value.rest == "" {
      assert [')'] + "" == ")";
    }
  }

  lemma MatchFileLineSound(v: string)
    ensures MatchFileLine(v).Some? ==> var (file, line) := MatchFileLine(v).value;
      && |file| > 0 && AllIn(file, FileClass) && |line| > 0 && AllIn(line, DigitClass)
      && v == file + (":" + (line + ")"))
  {
    var m := MatchGroup(v, FileClass, ':');
    if m.Some? {
      MatchLineSound(m.value.rest);
    }
  }

  lemma MatchCallSound(t: string)
    ensures MatchCall(t).Some? ==> FrameShaped("at " + t, MatchCall(t).value)
  {
    var m := MatchGroup(t, MethodClass, '(');
    if m.Some? {
      MatchFileLineSound(m.value.rest);
    }
  }

  /** Whatever matches has the frame's shape, with the groups returned. */
  lemma MatchFrameSound(s: string)
    ensures MatchFrame(s).Some? ==> FrameShaped(s, MatchFrame(s).value)
  {
    if |s| >= 3 && s[..3] == "at " {
      MatchCallSound(s[3..]);
      assert s == "at " + s[3..];
    }
  }

  lemma MatchLineComplete(line: string)
    requires |line| > 0 && AllIn(line, DigitClass)
    ensures MatchLine(line + ")") == Some(line)
  {
    MatchGroupComplete(line, DigitClass, ')', "");
    assert line + ([')'] + "") == line + ")";
  }

  lemma MatchFileLineComplete(file: string, line: string)
    requires |file| > 0 && AllIn(file, FileClass) && |line| > 0 && AllIn(line, DigitClass)
    ensures MatchFileLine(file + (":" + (line + ")"))) == Some((file, line))
  {
    MatchGroupComplete(file, FileClass, ':', line + ")");
    MatchLineComplete(line);
  }

  lemma MatchCallComplete(f: FrameText)
    requires |f.mname| > 0 && AllIn(f.mname, MethodClass)
    requires |f.file| > 0 && AllIn(f.file, FileClass) && |f.line| > 0 && AllIn(f.line, DigitClass)
    ensures MatchCall(f.mname + ("(" + (f.file + (":" + (f.line + ")"))))) == Some(f)
  {
    MatchGroupComplete(f.mname, MethodClass, '(', f.file + (":" + (f.line + ")")));
    MatchFileLineComplete(f.file, f.line);
  }

  /** Every string of the frame's shape matches, with exactly those groups. */
  lemma MatchFrameComplete(s: string, f: FrameText)
    requires FrameShaped(s, f)
    ensures MatchFrame(s) == Some(f)
  {
    var t := f.mname + ("(" + (f.file + (":" + (f.line + ")"))));
    assert s[..3] == "at " && s[3..] == t;
    MatchCallComplete(f);
  }

  /** A string matches the frame pattern exactly when it has the frame's shape, and then its groups are unique. */
  lemma MatchFrameIff(s: string, f: FrameText)
    ensures MatchFrame(s) == Some(f) <==> FrameShaped(s, f)
  {
    MatchFrameSound(s);
    if FrameShaped(s, f) {
      MatchFrameComplete(s, f);
    }
  }

  /**
   * The range `A-z` lets a method group hold `[`, `\\`, `]`, `^` and the backtick,
   * which no Java name contains and the file group refuses.
   */
  lemma MethodClassAdmitsBrackets()
    ensures InClass('[', MethodClass) && InClass('\\', MethodClass) && InClass(']', MethodClass)
    ensures InClass('^', MethodClass) && InClass('`', MethodClass)
    ensures !InClass('[', FileClass) && !InClass('\\', FileClass) && !InClass(']', FileClass)
    ensures !InClass('^', FileClass) && !InClass('`', FileClass)
  {
  }

  /** So a line whose method group holds a bracket still yields a frame. */
  lemma BracketFrameMatches()
    ensures MatchFrame("at x[(Y:1)") == Some(FrameText("x[", "Y", "1"))
  {
    var f := FrameText("x[", "Y", "1");
    assert AllIn(f.mname, MethodClass) by {
      assert f.mname[0] == 'x' && f.mname[1] == '[';
    }
    assert "at x[(Y:1)" == "at " + (f.mname + ("(" + (f.file + (":" + (f.line + ")")))));
    MatchFrameComplete("at x[(Y:1)", f);
  }

  // ---------------------------------------------------------------------------
  // Frames and the STACKSTART request
  // ---------------------------------------------------------------------------

  /** A stack frame of the request: method, file and line. */
  datatype Frame = Frame(mname: string, file: string, line: int)

  /**
   * What one token after the exception contributes: `None` when it does not match
   * once trimmed, `Some(None)` when its line number overflows `int` (where
   * `Integer.parseInt` throws), `Some(Some(frame))` otherwise.
   */
  function TokenFrame(token: string): Option<Option<Frame>> {
    var m := MatchFrame(Trim(token));
    if m.None? then None
    else
      var n := ParseJavaInt(m.value.line);
      if n.None? then Some(None) else Some(Some(Frame(m.value.mname, m.value.file, n.value)))
  }

  /** A trimmed frame-shaped token gives its frame, with the line number read in decimal. */
  lemma TokenFrameShaped(token: string, f: FrameText)
    requires FrameShaped(Trim(token), f)
    ensures DigitsValue(f.line) <= MaxJavaInt ==> TokenFrame(token) == Some(Some(Frame(f.mname, f.file, DigitsValue(f.line))))
    ensures DigitsValue(f.line) > MaxJavaInt ==> TokenFrame(token) == Some(None)
  {
    MatchFrameComplete(Trim(token), f);
    DigitRun(f.line);
  }

  /** Each token's contribution, in token order. */
  function Classify(tokens: seq<string>): (r: seq<Option<Option<Frame>>>)
    ensures |r| == |tokens|
    decreases |tokens|
  {
    if |tokens| == 0 then [] else [TokenFrame(tokens[0])] + Classify(tokens[1..])
  }

  lemma {:induction false} ClassifyAt(tokens: seq<string>)
    ensures forall i :: 0 <= i < |tokens| ==> Classify(tokens)[i] == TokenFrame(tokens[i])
    decreases |tokens|
  {
    if |tokens| > 0 {
      ClassifyAt(tokens[1..]);
      assert forall i :: 1 <= i < |tokens| ==> tokens[1..][i - 1] == tokens[i];
    }
  }

  lemma {:induction false} ClassifyAppend(a: seq<string>, b: seq<string>)
    ensures Classify(a + b) == Classify(a) + Classify(b)
    decreases |a|
  {
    if |a| == 0 {
      assert a + b == b;
    } else {
      assert (a + b)[1..] == a[1..] + b;
      assert (a + b)[0] == a[0];
      ClassifyAppend(a[1..], b);
    }
  }

  /**
   * The frames the contributions add up to, in order: tokens that did not match
   * add nothing, and one overflowing line number makes the whole parse fail.
   */
  function Collect(ts: seq<Option<Option<Frame>>>): (r: Option<seq<Frame>>)
    ensures r.Some? ==> |r.value| <= |ts|
    decreases |ts|
  {
    if |ts| == 0 then Some([])
    else
      var rest := Collect(ts[1..]);
      if ts[0].None? then rest
      else if ts[0].value.None? || rest.None? then None
      else Some([ts[0].value.value] + rest.value)
  }

  lemma {:induction false} CollectAppend(a: seq<Option<Option<Frame>>>, b: seq<Option<Option<Frame>>>)
    ensures Collect(a + b) ==
      if Collect(a).Some? && Collect(b).Some? then Some(Collect(a).value + Collect(b).value) else None
    decreases |a|
  {
    if |a| == 0 {
      assert a + b == b;
      if Collect(b).Some? {
        assert [] + Collect(b).value == Collect(b).value;
      }
    } else {
      assert (a + b)[1..] == a[1..] + b;
      assert (a + b)[0] == a[0];
      CollectAppend(a[1..], b);
      if a[0].Some? && a[0].value.Some? && Collect(a[1..]).Some? && Collect(b).Some? {
        assert [a[0].value.value] + (Collect(a[1..]).value + Collect(b).value)
            == ([a[0].value.value] + Collect(a[1..]).value) + Collect(b).value;
      }
    }
  }

  /** The parse fails exactly when some matched token's line number overflows. */
  lemma {:induction false} CollectFails(ts: seq<Option<Option<Frame>>>)
    ensures Collect(ts).None? <==> exists i :: 0 <= i < |ts| && ts[i] == Some(None)
    decreases |ts|
  {
    if |ts| > 0 {
      CollectFails(ts[1..]);
      if exists j :: 0 <= j < |ts[1..]| && ts[1..][j] == Some(None) {
        var j :| 0 <= j < |ts[1..]| && ts[1..][j] == Some(None);
        assert ts[j + 1] == Some(None);
      }
      if exists i :: 0 <= i < |ts| && ts[i] == Some(None) {
        var i :| 0 <= i < |ts| && ts[i] == Some(None);
        if i > 0 {
          assert ts[1..][i - 1] == Some(None);
        }
      }
    }
  }

  lemma CollectSingle(t: Option<Option<Frame>>)
    ensures Collect([t]) ==
      match t
      case None => Some([])
      case Some(None) => None
      case Some(Some(f)) => Some([f])
  {
    assert [t][1..] == [];
    if t.Some? && t.value.Some? {
      assert [t.value.value] + [] == [t.value.value];
    }
  }

  /**
   * The frames of the tokens after the exception, in order: each token is trimmed
   * and kept when it matches; `None` when a matched line number overflows `int`,
   * where the exception leaves `getFaitResult`.
   */
  function ParseFrames(tokens: seq<string>): (r: Option<seq<Frame>>)
    ensures r.Some? ==> |r.value| <= |tokens|
  {
    Collect(Classify(tokens))
  }

  /** Frames keep token order: the frames of `a + b` are those of `a` followed by those of `b`. */
  lemma ParseFramesAppend(a: seq<string>, b: seq<string>)
    ensures ParseFrames(a + b) ==
      if ParseFrames(a).Some? && ParseFrames(b).Some? then Some(ParseFrames(a).value + ParseFrames(b).value) else None
  {
    ClassifyAppend(a, b);
    CollectAppend(Classify(a), Classify(b));
  }

  /** One token on its own: no frame when it does not match, its frame when it does, a failure when its line overflows. */
  lemma ParseFramesSingle(token: string)
    ensures ParseFrames([token]) ==
      match TokenFrame(token)
      case None => Some([])
      case Some(None) => None
      case Some(Some(f)) => Some([f])
  {
    assert [token][1..] == [];
    assert Classify([token]) == [TokenFrame(token)];
    CollectSingle(TokenFrame(token));
  }

  /** What the request is built from: nothing, the exception and its frames, or the parse failure. */
  datatype StackStart = NoStackStart | StackStart(exception: string, frames: seq<Frame>) | NumberFormatError

  /**
   * `getBackSliceStart` up to the `STACKSTART` message: no request for a missing or
   * blank trace or when no frame matched; otherwise the first token is the exception
   * (untrimmed) and the frames come from the later tokens.
   */
  function BackSliceRequest(stack: Option<string>): (r: StackStart)
    ensures stack.None? ==> r == NoStackStart
    ensures r.StackStart? ==> |r.frames| > 0
    ensures r.StackStart? ==> |Tokenize(stack.value)| > 0 && r.exception == Tokenize(stack.value)[0]
    ensures r.StackStart? ==> Some(r.frames) == ParseFrames(Tokenize(stack.value)[1..])
    ensures stack.Some? && |Tokenize(stack.value)| == 0 ==> r == NoStackStart
    ensures stack.Some? && |Tokenize(stack.value)| > 0 ==>
      (r.NumberFormatError? <==> ParseFrames(Tokenize(stack.value)[1..]).None?)
    ensures stack.Some? && |Tokenize(stack.value)| > 0 && ParseFrames(Tokenize(stack.value)[1..]).Some? ==>
      (r.StackStart? <==> |ParseFrames(Tokenize(stack.value)[1..]).value| > 0)
  {
    if stack.None? then NoStackStart
    else
      var tokens := Tokenize(stack.value);
      if |tokens| == 0 then NoStackStart
      else
        match ParseFrames(tokens[1..])
        case None => NumberFormatError
        case Some(frames) => if |frames| == 0 then NoStackStart else StackStart(tokens[0], frames)
  }

  /** Every contribution that is a frame ends up among the collected frames, whenever collecting succeeds. */
  lemma {:induction false} CollectKeeps(ts: seq<Option<Option<Frame>>>)
    ensures Collect(ts).Some? ==>
      forall k :: 0 <= k < |ts| && ts[k].Some? && ts[k].value.Some? ==> ts[k].value.value in Collect(ts).value
    decreases |ts|
  {
    if |ts| > 0 {
      CollectKeeps(ts[1..]);
      assert forall k :: 1 <= k < |ts| ==> ts[1..][k - 1] == ts[k];
    }
  }

  /** Every token that yields a frame contributes it to the parsed frames, whenever parsing succeeds. */
  lemma ParseFramesKeeps(tokens: seq<string>)
    ensures ParseFrames(tokens).Some? ==>
      forall i :: 0 <= i < |tokens| && TokenFrame(tokens[i]).Some? && TokenFrame(tokens[i]).value.Some? ==>
        TokenFrame(tokens[i]).value.value in ParseFrames(tokens).value
  {
    ClassifyAt(tokens);
    CollectKeeps(Classify(tokens));
  }

  /** The same for the tokens after the exception, indexed as in the whole token list. */
  lemma LaterFramesKeep(tokens: seq<string>)
    requires |tokens| > 0
    ensures ParseFrames(tokens[1..]).Some? ==>
      forall i :: 1 <= i < |tokens| && TokenFrame(tokens[i]).Some? && TokenFrame(tokens[i]).value.Some? ==>
        TokenFrame(tokens[i]).value.value in ParseFrames(tokens[1..]).value
  {
    var later := tokens[1..];
    ParseFramesKeeps(later);
    forall i | 1 <= i < |tokens|
      ensures later[i - 1] == tokens[i]
    {
    }
  }

  /**
   * A later token that matches the frame pattern with an in-range line number always
   * reaches the request: the trace yields a `STACKSTART` holding that frame, unless
   * some other token's line number overflows.
   */
  lemma RequestHoldsMatchedFrame(s: string, i: nat, fr: Frame)
    requires 1 <= i < |Tokenize(s)| && TokenFrame(Tokenize(s)[i]) == Some(Some(fr))
    ensures BackSliceRequest(Some(s)).NumberFormatError?
         || (BackSliceRequest(Some(s)).StackStart? && fr in BackSliceRequest(Some(s)).frames)
  {
    LaterFramesKeep(Tokenize(s));
  }

  /** A trace of a single token names an exception and no frame, so it yields no request. */
  lemma OneTokenNoRequest(t: string)
    requires |t| > 0 && NoDelim(t)
    ensures BackSliceRequest(Some(t)) == NoStackStart
  {
    TokenizeWhole(t);
    assert [t][1..] == [];
  }

  /** After the first line, the frames are exactly those of the rest of the trace. */
  lemma RequestOfExceptionAndRest(exc: string, rest: string)
    requires |exc| > 0 && NoDelim(exc)
    ensures BackSliceRequest(Some(exc + "\n" + rest)) ==
      match ParseFrames(Tokenize(rest))
      case None => NumberFormatError
      case Some(frames) => if |frames| == 0 then NoStackStart else StackStart(exc, frames)
  {
    TokenizeCons(exc, '\n', rest);
    assert exc + "\n" + rest == exc + ['\n'] + rest;
    assert ([exc] + Tokenize(rest))[1..] == Tokenize(rest);
  }

  /**
   * The exception line is never read as a frame: a frame-shaped line after an
   * exception line yields that one frame, while on its own it yields no request.
   */
  lemma ExceptionLineIsNotAFrame(exc: string, frame: string, f: FrameText)
    requires |exc| > 0 && NoDelim(exc) && |frame| > 0 && NoDelim(frame)
    requires FrameShaped(frame, f) && DigitsValue(f.line) <= MaxJavaInt
    ensures BackSliceRequest(Some(frame)) == NoStackStart
    ensures BackSliceRequest(Some(exc + "\n" + frame)) == StackStart(exc, [Frame(f.mname, f.file, DigitsValue(f.line))])
  {
    OneTokenNoRequest(frame);
    RequestOfExceptionAndRest(exc, frame);
    TokenizeWhole(frame);
    FrameLineParses(frame, f);
  }

  /** A frame-shaped line is its own trimmed form, so on its own it parses to its frame. */
  lemma FrameLineParses(frame: string, f: FrameText)
    requires FrameShaped(frame, f) && DigitsValue(f.line) <= MaxJavaInt
    ensures ParseFrames([frame]) == Some([Frame(f.mname, f.file, DigitsValue(f.line))])
  {
    FrameUntrimmed(frame, f);
    TokenFrameShaped(frame, f);
    ParseFramesSingle(frame);
  }

  /** A frame-shaped line starts with `a` and ends with `)`, so trimming leaves it alone. */
  lemma FrameUntrimmed(frame: string, f: FrameText)
    requires FrameShaped(frame, f)
    ensures Trim(frame) == frame
  {
    assert frame[0] == 'a' && frame[|frame| - 1] == ')';
    TrimPadded("", frame, "");
    assert "" + frame + "" == frame;
  }

  /** The request fails to parse exactly when some later token matches with a line number that overflows `int`. */
  lemma ParseFramesFails(tokens: seq<string>)
    ensures ParseFrames(tokens).None? <==> exists i :: 0 <= i < |tokens| && TokenFrame(tokens[i]) == Some(None)
  {
    ClassifyAt(tokens);
    CollectFails(Classify(tokens));
  }
}
