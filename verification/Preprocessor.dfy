/** The preprocessor reading the lines of a configuration file.

    `Preprocessor` is the machine itself, line by line over a changing macro
    environment. `LinesReadAsForest` shows that it gives the flat text of every
    option forest the meaning `OptionForest.Resolve` gives to the forest. */
module Preprocessor {
  import opened OptionForest

  /** The directives a configuration file is made of. */
  datatype Line<K> =
    | IfNotDefined(key: K)
    | If(key: K)
    | Define(key: K, value: int)
    | EndIf

  datatype Fault<K> = Redefined(key: K) | StrayEndIf | Unterminated

  /** `open` groups are being read; `skipped` groups are being skipped, the
      outermost because its condition failed and the rest because they are
      inside it. */
  datatype State<K(==)> =
    | Reading(env: Env<K>, open: nat, skipped: nat)
    | Failed(fault: Fault<K>)

  datatype Outcome<K(==)> = Done(env: Env<K>) | Rejected(fault: Fault<K>)

  function OpenGroup<K>(s: State<K>, condition: bool): State<K>
    requires s.Reading?
  {
    if s.skipped > 0 || !condition then s.(skipped := s.skipped + 1) else s.(open := s.open + 1)
  }

  function Step<K>(s: State<K>, line: Line<K>): State<K> {
    if s.Failed? then s
    else match line
      case IfNotDefined(k) => OpenGroup(s, k !in s.env)
      case If(k) => OpenGroup(s, Value(s.env, k) != 0)
      case Define(k, v) =>
        if s.skipped > 0 then s
        else if k in s.env && s.env[k] != v then Failed(Redefined(k))
        else s.(env := s.env[k := v])
      case EndIf =>
        if s.skipped > 0 then s.(skipped := s.skipped - 1)
        else if s.open > 0 then s.(open := s.open - 1)
        else Failed(StrayEndIf)
  }

  function Steps<K>(s: State<K>, lines: seq<Line<K>>): State<K>
    decreases |lines|
  {
    if lines == [] then s else Steps(Step(s, lines[0]), lines[1..])
  }

  function Finish<K>(s: State<K>): Outcome<K> {
    match s
    case Failed(fault) => Rejected(fault)
    case Reading(env, open, skipped) => if open + skipped > 0 then Rejected(Unterminated) else Done(env)
  }

  /** Reading a whole file, the application's definitions already made. */
  function Read<K>(lines: seq<Line<K>>, overrides: Env<K>): Outcome<K> {
    Finish(Steps(Reading(overrides, 0, 0), lines))
  }

  // ---------------------------------------------------------------------
  // Any file that reads without fault
  // ---------------------------------------------------------------------

  function Groups<K>(lines: seq<Line<K>>): int {
    if lines == [] then 0
    else
      var rest := Groups(lines[1..]);
      match lines[0]
      case IfNotDefined(_) => rest + 1
      case If(_) => rest + 1
      case Define(_, _) => rest
      case EndIf => rest - 1
  }

  lemma {:induction false} StepsKeep<K(!new)>(s: State<K>, lines: seq<Line<K>>)
    requires s.Reading? && Steps(s, lines).Reading?
    ensures var end := Steps(s, lines);
            && end.open + end.skipped == s.open + s.skipped + Groups(lines)
            && Extends(s.env, end.env)
    decreases |lines|
  {
    if lines != [] {
      if Step(s, lines[0]).Failed? {
        FailedStays(Step(s, lines[0]).fault, lines[1..]);
      }
      StepsKeep(Step(s, lines[0]), lines[1..]);
    }
  }

  /** Whatever its lines, a file that reads without fault closes every group it
      opens and leaves every earlier definition as it was. */
  lemma ReadKeepsDefinitions<K(!new)>(lines: seq<Line<K>>, overrides: Env<K>)
    requires Read(lines, overrides).Done?
    ensures Groups(lines) == 0
    ensures Extends(overrides, Read(lines, overrides).env)
  {
    StepsKeep(Reading(overrides, 0, 0), lines);
  }

  // ---------------------------------------------------------------------
  // Files of guarded options
  // ---------------------------------------------------------------------

  /** The text of a forest: each option is an include-once definition, followed
      by its children under its own `#if` when it has any. */
  function Lines<K>(f: Forest<K>): seq<Line<K>> {
    match f
    case End => []
    case Opt(k, d, children, next) =>
      [IfNotDefined(k), Define(k, d), EndIf]
      + (if children.End? then [] else [If(k)] + Lines(children) + [EndIf])
      + Lines(next)
  }

  lemma {:induction false} StepsConcat<K>(s: State<K>, a: seq<Line<K>>, b: seq<Line<K>>)
    ensures Steps(s, a + b) == Steps(Steps(s, a), b)
    decreases |a|
  {
    if a == [] {
      assert a + b == b;
    } else {
      assert (a + b)[1..] == a[1..] + b;
      StepsConcat(Step(s, a[0]), a[1..], b);
    }
  }

  /** The three lines of a definition, read in an active group. */
  lemma DefinitionLines<K>(s: State<K>, k: K, d: int)
    requires s.Reading?
    ensures Steps(s, [IfNotDefined(k), Define(k, d), EndIf]) ==
            if s.skipped > 0 then s else s.(env := DefineIfUndefined(s.env, k, d))
  {
    var lines := [IfNotDefined(k), Define(k, d), EndIf];
    var s1 := Step(s, lines[0]);
    var s2 := Step(s1, lines[1]);
    assert lines[1..] == [Define(k, d), EndIf];
    assert lines[1..][1..] == [EndIf];
    assert Steps(s2, [EndIf]) == Step(s2, EndIf);
  }

  /** A group around `inner`, given what reading `inner` inside it does. */
  lemma GroupLines<K>(s: State<K>, opening: Line<K>, inner: seq<Line<K>>)
    ensures Steps(s, [opening] + inner + [EndIf]) == Step(Steps(Step(s, opening), inner), EndIf)
  {
    var entered := Step(s, opening);
    StepsConcat(s, [opening] + inner, [EndIf]);
    StepsConcat(s, [opening], inner);
    assert Steps(s, [opening]) == entered;
    var last := Steps(entered, inner);
    assert Steps(last, [EndIf]) == Step(last, EndIf);
  }

  /** Reading the text of a forest resolves the forest in an active group and
      does nothing in a skipped one; no line of it ever redefines a macro. */
  lemma {:induction false} StepsLines<K>(s: State<K>, f: Forest<K>)
    requires s.Reading?
    ensures Steps(s, Lines(f)) == if s.skipped > 0 then s else s.(env := Resolve(f, s.env))
    decreases f
  {
    match f
    case End =>
    case Opt(k, d, children, next) =>
      var head := [IfNotDefined(k), Define(k, d), EndIf];
      var body := if children.End? then [] else [If(k)] + Lines(children) + [EndIf];
      var s1 := Steps(s, head);
      DefinitionLines(s, k, d);
      var s2 := Steps(s1, body);
      StepsConcat(s, head + body, Lines(next));
      StepsConcat(s, head, body);
      if !children.End? {
        GroupLines(s1, If(k), Lines(children));
        StepsLines(Step(s1, If(k)), children);
      }
      StepsLines(s2, next);
  }

  /** A group under `#if` is read exactly when its macro is defined and nonzero:
      an undefined one reads as 0, so its group is skipped. */
  lemma IfGroup<K>(s: State<K>, k: K, f: Forest<K>)
    requires s.Reading?
    ensures Steps(s, [If(k)] + Lines(f) + [EndIf]) ==
            if s.skipped == 0 && k in s.env && s.env[k] != 0 then s.(env := Resolve(f, s.env)) else s
  {
    GroupLines(s, If(k), Lines(f));
    StepsLines(Step(s, If(k)), f);
  }

  /** A group under `#ifndef` is read exactly when its macro is not defined. */
  lemma IfNotDefinedGroup<K>(s: State<K>, k: K, f: Forest<K>)
    requires s.Reading?
    ensures Steps(s, [IfNotDefined(k)] + Lines(f) + [EndIf]) ==
            if s.skipped == 0 && k !in s.env then s.(env := Resolve(f, s.env)) else s
  {
    GroupLines(s, IfNotDefined(k), Lines(f));
    StepsLines(Step(s, IfNotDefined(k)), f);
  }

  /** A file that gives a defined macro another value is rejected, whatever it
      goes on to say. */
  lemma RedefinitionRejected<K>(before: seq<Line<K>>, k: K, v: int, after: seq<Line<K>>, overrides: Env<K>)
    requires var s := Steps(Reading(overrides, 0, 0), before);
             s.Reading? && s.skipped == 0 && k in s.env && s.env[k] != v
    ensures Read(before + [Define(k, v)] + after, overrides) == Rejected(Redefined(k))
  {
    var start := Reading(overrides, 0, 0);
    var s := Steps(start, before);
    StepsConcat(start, before + [Define(k, v)], after);
    StepsConcat(start, before, [Define(k, v)]);
    assert Steps(s, [Define(k, v)]) == Step(s, Define(k, v));
    FailedStays(Redefined(k), after);
  }

  /** The flat file and the forest mean the same, whatever the application
      defines; reading it never fails. */
  lemma LinesReadAsForest<K>(f: Forest<K>, overrides: Env<K>)
    ensures Read(Lines(f), overrides) == Done(Resolve(f, overrides))
  {
    StepsLines(Reading(overrides, 0, 0), f);
  }

  /** Including the file twice over reads as including it once. */
  lemma ReadTwice<K(!new)>(f: Forest<K>, overrides: Env<K>)
    ensures Read(Lines(f) + Lines(f), overrides) == Read(Lines(f), overrides)
  {
    var start := Reading(overrides, 0, 0);
    StepsConcat(start, Lines(f), Lines(f));
    StepsLines(start, f);
    StepsLines(Steps(start, Lines(f)), f);
    ResolveIdempotent(f, overrides);
  }

  /** The machine that reads the file, its state changing line by line. */
  class Machine<K(==)> {
    var env: Env<K>
    var open: nat
    var skipped: nat
    var fault: Maybe<Fault<K>>

    function Current(): State<K>
      reads this
    {
      if fault.Some? then Failed(fault.value) else Reading(env, open, skipped)
    }

    constructor (overrides: Env<K>)
      ensures Current() == Reading(overrides, 0, 0)
    {
      env, open, skipped, fault := overrides, 0, 0, None;
    }

    method EnterGroup(condition: bool)
      requires fault.None?
      modifies this
      ensures Current() == OpenGroup(old(Current()), condition)
    {
      if skipped > 0 || !condition {
        skipped := skipped + 1;
      } else {
        open := open + 1;
      }
    }

    method Obey(line: Line<K>)
      requires fault.None?
      modifies this
      ensures Current() == Step(old(Current()), line)
    {
      match line
      case IfNotDefined(k) => EnterGroup(k !in env);
      case If(k) => EnterGroup(k in env && env[k] != 0);
      case Define(k, v) =>
        if skipped == 0 {
          if k in env && env[k] != v {
            fault := Some(Redefined(k));
          } else {
            env := env[k := v];
          }
        }
      case EndIf =>
        if skipped > 0 {
          skipped := skipped - 1;
        } else if open > 0 {
          open := open - 1;
        } else {
          fault := Some(StrayEndIf);
        }
    }

    method Process(lines: seq<Line<K>>) returns (outcome: Outcome<K>)
      modifies this
      ensures Current() == Steps(old(Current()), lines)
      ensures outcome == Finish(Current())
    {
      var i := 0;
      while i < |lines| && fault.None?
        invariant 0 <= i <= |lines|
        invariant Steps(Current(), lines[i..]) == Steps(old(Current()), lines)
      {
        Obey(lines[i]);
        assert lines[i..][1..] == lines[i + 1..];
        i := i + 1;
      }
      if fault.Some? {
        FailedStays(fault.value, lines[i..]);
        outcome := Rejected(fault.value);
      } else {
        outcome := if open + skipped > 0 then Rejected(Unterminated) else Done(env);
      }
    }
  }

  lemma {:induction false} FailedStays<K>(fault: Fault<K>, lines: seq<Line<K>>)
    ensures Steps(Failed(fault), lines) == Failed(fault)
  {
    if lines != [] {
      FailedStays(fault, lines[1..]);
    }
  }

  /** Building an application: read its file, starting from its overrides. */
  method Build<K(==)>(f: Forest<K>, overrides: Env<K>) returns (env: Env<K>)
    ensures env == Resolve(f, overrides)
  {
    var machine := new Machine(overrides);
    var outcome := machine.Process(Lines(f));
    LinesReadAsForest(f, overrides);
    env := outcome.env;
  }
}
