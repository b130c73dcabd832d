/**
 The log level registry of internal/pkg/log/logger.go: levels by module, the spec that sets them and the
 spec printed from them.
 */
module LogSpec {
  import opened Wrappers
  import opened Text

  // zapcore's numbering, which leaves 3 to a level this package does not name.
  const DEBUG := -1
  const INFO := 0
  const WARNING := 1
  const ERROR := 2
  const PANIC := 4
  const FATAL := 5
  const MIN_LOG_LEVEL := DEBUG

  const DEFAULT_MODULE := ""

  type Levels = map<string, int>

  predicate Named(level: int) {
    level in {DEBUG, INFO, WARNING, ERROR, PANIC, FATAL}
  }

  function LevelString(level: int): string {
    if level == DEBUG then "DEBUG"
    else if level == INFO then "INFO"
    else if level == WARNING then "WARN"
    else if level == ERROR then "ERROR"
    else if level == PANIC then "PANIC"
    else if level == FATAL then "FATAL"
    else "Level(" + Itoa(level) + ")"
  }

  function ParseLevel(s: string): (r: Option<int>)
    ensures r.Some? ==> Named(r.value)
  {
    if s == "DEBUG" || s == "debug" then Some(DEBUG)
    else if s == "INFO" || s == "info" then Some(INFO)
    else if s == "WARN" || s == "warn" || s == "WARNING" || s == "warning" then Some(WARNING)
    else if s == "ERROR" || s == "error" then Some(ERROR)
    else if s == "PANIC" || s == "panic" then Some(PANIC)
    else if s == "FATAL" || s == "fatal" then Some(FATAL)
    else None
  }

  // A level reads back from its own name exactly when it has one.
  lemma LevelNamesParseBack(level: int)
    ensures ParseLevel(LevelString(level)) == if Named(level) then Some(level) else None
    ensures Named(level) ==> ':' !in LevelString(level) && '=' !in LevelString(level)
  {
    if !Named(level) {
      assert LevelString(level)[0] == 'L';
    }
  }

  // Which level each name stands for, in zapcore's numbering.
  lemma LevelNumbers()
    ensures ParseLevel("debug") == Some(-1) && ParseLevel("info") == Some(0) && ParseLevel("warn") == Some(1)
    ensures ParseLevel("error") == Some(2) && ParseLevel("panic") == Some(4) && ParseLevel("fatal") == Some(5)
  {
  }

  function LowerChar(c: char): char {
    if 'A' <= c <= 'Z' then 'a' + (c - 'A') else c
  }

  function Lower(s: string): string {
    seq(|s|, i requires 0 <= i < |s| => LowerChar(s[i]))
  }

  // The accepted names are those of the six levels and the long form of WARN, all in capitals or all in small letters.
  lemma ParsesIff(s: string, level: int)
    ensures ParseLevel(s) == Some(level) <==>
            || (Named(level) && (s == LevelString(level) || s == Lower(LevelString(level))))
            || (level == WARNING && (s == "WARNING" || s == Lower("WARNING")))
  {
    LowerNames();
  }

  lemma LowerNames()
    ensures Lower("DEBUG") == "debug" && Lower("INFO") == "info"
    ensures Lower("WARN") == "warn" && Lower("WARNING") == "warning"
    ensures Lower("ERROR") == "error" && Lower("PANIC") == "panic" && Lower("FATAL") == "fatal"
  {
  }

  // ---- What a spec says ----

  datatype Spec = Spec(default: Option<int>, pairs: seq<(string, int)>)

  const NO_SPEC := Spec(None, [])

  // One part of the spec added to what came before: a module and its level, or the one default.
  function AddPart(spec: Spec, part: string): Option<Spec> {
    if '=' in part then
      var moduleAndLevel := Split(part, '=');
      if |moduleAndLevel| < 2 then None
      else
        var level := ParseLevel(moduleAndLevel[1]);
        if level.None? then None else Some(spec.(pairs := spec.pairs + [(moduleAndLevel[0], level.value)]))
    else if spec.default.Some? then None
    else
      var level := ParseLevel(part);
      if level.None? then None else Some(spec.(default := level))
  }

  function ParseParts(parts: seq<string>): Option<Spec> {
    if parts == [] then Some(NO_SPEC)
    else
      var before := ParseParts(parts[..|parts| - 1]);
      if before.None? then None else AddPart(before.value, parts[|parts| - 1])
  }

  function ParseSpec(spec: string): Option<Spec> {
    ParseParts(Split(spec, ':'))
  }

  function SetAll(levels: Levels, pairs: seq<(string, int)>): Levels {
    if pairs == [] then levels
    else SetAll(levels, pairs[..|pairs| - 1])[pairs[|pairs| - 1].0 := pairs[|pairs| - 1].1]
  }

  function Apply(levels: Levels, spec: Spec): Levels {
    SetAll(levels[DEFAULT_MODULE := if spec.default.Some? then spec.default.value else INFO], spec.pairs)
  }

  // A part with '=' splits in at least two.
  lemma {:induction false} SplitWithSeparator(s: string, sep: char)
    ensures sep in s <==> |Split(s, sep)| >= 2
  {
    if s != [] {
      SplitWithSeparator(s[1..], sep);
      assert s == [s[0]] + s[1..];
    }
  }

  // ---- Meaning ----

  predicate PartParses(part: string) {
    if '=' in part then ParseLevel(Split(part, '=')[if |Split(part, '=')| >= 2 then 1 else 0]).Some?
    else ParseLevel(part).Some?
  }

  predicate AllParse(parts: seq<string>) {
    forall i :: 0 <= i < |parts| ==> PartParses(parts[i])
  }

  predicate HasDefault(parts: seq<string>) {
    exists i :: 0 <= i < |parts| && '=' !in parts[i]
  }

  predicate OneDefault(parts: seq<string>) {
    forall i, j :: 0 <= i < j < |parts| ==> '=' in parts[i] || '=' in parts[j]
  }

  lemma OneMorePart(init: seq<string>, part: string)
    ensures AllParse(init + [part]) <==> AllParse(init) && PartParses(part)
    ensures HasDefault(init + [part]) <==> HasDefault(init) || '=' !in part
    ensures OneDefault(init + [part]) <==> OneDefault(init) && ('=' in part || !HasDefault(init))
  {
    var parts := init + [part];
    assert forall i :: 0 <= i < |init| ==> parts[i] == init[i];
    assert parts[|init|] == part;
    if HasDefault(init) {
      var i :| 0 <= i < |init| && '=' !in init[i];
      assert '=' !in parts[i];
    }
  }

  lemma AddPartIff(spec: Spec, part: string)
    ensures AddPart(spec, part).Some? <==> PartParses(part) && ('=' in part || spec.default.None?)
    ensures AddPart(spec, part).Some? ==>
              (AddPart(spec, part).value.default.Some? <==> spec.default.Some? || '=' !in part)
  {
    SplitWithSeparator(part, '=');
  }

  // A spec is accepted exactly when every part names a level and at most one part is a default.
  lemma {:induction false} AcceptedIff(parts: seq<string>)
    ensures ParseParts(parts).Some? <==> AllParse(parts) && OneDefault(parts)
    ensures ParseParts(parts).Some? ==> (ParseParts(parts).value.default.Some? <==> HasDefault(parts))
  {
    if parts != [] {
      var init, part := parts[..|parts| - 1], parts[|parts| - 1];
      AcceptedIff(init);
      if ParseParts(init).Some? { AddPartIff(ParseParts(init).value, part); }
      OneMorePart(init, part);
      assert parts == init + [part];
    }
  }

  // A module and its level; whatever follows a second '=' is ignored.
  predicate IsPair(part: string, name: string, level: string) {
    && '=' !in name && '=' !in level
    && (part == name + "=" + level || name + "=" + level + "=" <= part)
  }

  ghost predicate NamesLevel(part: string) {
    if '=' in part then exists name, level :: IsPair(part, name, level) && ParseLevel(level).Some?
    else ParseLevel(part).Some?
  }

  lemma PairSplits(part: string, name: string, level: string)
    requires IsPair(part, name, level)
    ensures '=' in part && |Split(part, '=')| >= 2 && Split(part, '=')[0] == name && Split(part, '=')[1] == level
  {
    assert part[|name|] == '=';
    if part == name + "=" + level {
      assert part == name + ['='] + level;
      SplitHead(name, level, '=');
      SplitAtom(level, '=');
    } else {
      var rest := part[|name| + |level| + 2..];
      assert part == name + ['='] + (level + ['='] + rest);
      SplitHead(name, level + ['='] + rest, '=');
      SplitHead(level, rest, '=');
    }
  }

  lemma SplitIsPair(part: string)
    requires '=' in part
    ensures |Split(part, '=')| >= 2 && IsPair(part, Split(part, '=')[0], Split(part, '=')[1])
  {
    SplitWithSeparator(part, '=');
    JoinOfSplit(part, '=');
    var pieces := Split(part, '=');
    assert pieces[0] in pieces && pieces[1] in pieces;
    assert pieces[1..][0] == pieces[1];
    assert part == pieces[0] + ['='] + Join(pieces[1..], '=');
    if |pieces| > 2 { assert Join(pieces[1..], '=') == pieces[1] + ['='] + Join(pieces[1..][1..], '='); }
  }

  lemma NamesLevelIff(part: string)
    ensures NamesLevel(part) <==> PartParses(part)
  {
    if '=' in part {
      SplitIsPair(part);
      if NamesLevel(part) {
        var name, level :| IsPair(part, name, level) && ParseLevel(level).Some?;
        PairSplits(part, name, level);
      }
    }
  }

  // The parts of a spec: free of the separator, each naming a level, at most one of them a default.
  ghost predicate SpelledBy(spec: string, parts: seq<string>) {
    && parts != [] && (forall part :: part in parts ==> ':' !in part)
    && spec == Join(parts, ':')
    && (forall i :: 0 <= i < |parts| ==> NamesLevel(parts[i]))
    && OneDefault(parts)
  }

  // The accepted spec strings are exactly those spelled by such parts, and they say what the parts say.
  lemma SpecAcceptedIff(spec: string)
    ensures ParseSpec(spec).Some? <==> exists parts :: SpelledBy(spec, parts)
    ensures forall parts :: SpelledBy(spec, parts) ==> ParseSpec(spec) == ParseParts(parts)
  {
    if ParseSpec(spec).Some? {
      var parts := Split(spec, ':');
      AcceptedIff(parts);
      JoinOfSplit(spec, ':');
      forall i | 0 <= i < |parts| ensures NamesLevel(parts[i]) {
        NamesLevelIff(parts[i]);
      }
      assert SpelledBy(spec, parts);
    }
    forall parts | SpelledBy(spec, parts) ensures ParseSpec(spec) == ParseParts(parts) && ParseSpec(spec).Some? {
      SplitOfJoin(parts, ':');
      forall i | 0 <= i < |parts| ensures PartParses(parts[i]) {
        NamesLevelIff(parts[i]);
      }
      AcceptedIff(parts);
    }
  }

  function LastListed(pairs: seq<(string, int)>, name: string): Option<int> {
    if pairs == [] then None
    else if pairs[|pairs| - 1].0 == name then Some(pairs[|pairs| - 1].1)
    else LastListed(pairs[..|pairs| - 1], name)
  }

  lemma {:induction false} SetAllSetsLast(levels: Levels, pairs: seq<(string, int)>, name: string)
    ensures LastListed(pairs, name).Some? ==>
              name in SetAll(levels, pairs) && SetAll(levels, pairs)[name] == LastListed(pairs, name).value
    ensures LastListed(pairs, name).None? ==>
              (name in SetAll(levels, pairs) <==> name in levels)
              && (name in levels ==> SetAll(levels, pairs)[name] == levels[name])
  {
    if pairs != [] {
      SetAllSetsLast(levels, pairs[..|pairs| - 1], name);
    }
  }

  // After an accepted spec each named module has its last listed level, the default module the explicit
  // default or INFO unless a pair names it, and every other module what it had.
  lemma AcceptedSpecMeans(levels: Levels, spec: Spec, name: string)
    ensures var levels', listed := Apply(levels, spec), LastListed(spec.pairs, name);
            if listed.Some? then name in levels' && levels'[name] == listed.value
            else if name == DEFAULT_MODULE then
              name in levels' && levels'[name] == (if spec.default.Some? then spec.default.value else INFO)
            else
              (name in levels' <==> name in levels) && (name in levels ==> levels'[name] == levels[name])
  {
    var base := levels[DEFAULT_MODULE := if spec.default.Some? then spec.default.value else INFO];
    SetAllSetsLast(base, spec.pairs, name);
  }

  // A module without a level of its own has the default's, and INFO if there is none.
  function LevelOf(levels: Levels, name: string): int {
    if name in levels then levels[name] else if DEFAULT_MODULE in levels then levels[DEFAULT_MODULE] else INFO
  }

  // The level every module ends up with when a spec is set: the last one listed for it, else the one it had of
  // its own, else the new default, which is the last one listed for the empty module, the explicit one, or INFO.
  lemma LevelAfterSpec(levels: Levels, spec: Spec, name: string)
    ensures var listed, default := LastListed(spec.pairs, name), LastListed(spec.pairs, DEFAULT_MODULE);
            LevelOf(Apply(levels, spec), name) ==
            if listed.Some? then listed.value
            else if name != DEFAULT_MODULE && name in levels then levels[name]
            else if default.Some? then default.value
            else if spec.default.Some? then spec.default.value
            else INFO
  {
    AcceptedSpecMeans(levels, spec, name);
    AcceptedSpecMeans(levels, spec, DEFAULT_MODULE);
  }

  // ---- Writing a spec ----

  predicate CleanPair(pair: (string, string)) {
    ':' !in pair.0 && '=' !in pair.0 && ':' !in pair.1 && '=' !in pair.1 && ParseLevel(pair.1).Some?
  }

  function WrittenParts(pairs: seq<(string, string)>): seq<string> {
    if pairs == [] then []
    else WrittenParts(pairs[..|pairs| - 1]) + [pairs[|pairs| - 1].0 + "=" + pairs[|pairs| - 1].1]
  }

  function WrittenPairs(pairs: seq<(string, string)>): seq<(string, int)>
    requires forall i :: 0 <= i < |pairs| ==> CleanPair(pairs[i])
  {
    if pairs == [] then []
    else
      var init, last := pairs[..|pairs| - 1], pairs[|pairs| - 1];
      assert CleanPair(last);
      WrittenPairs(init) + [(last.0, ParseLevel(last.1).value)]
  }

  lemma {:induction false} WrittenPartsParse(pairs: seq<(string, string)>)
    requires forall i :: 0 <= i < |pairs| ==> CleanPair(pairs[i])
    ensures forall part :: part in WrittenParts(pairs) ==> ':' !in part
    ensures ParseParts(WrittenParts(pairs)) == Some(Spec(None, WrittenPairs(pairs)))
  {
    if pairs != [] {
      var init, last := pairs[..|pairs| - 1], pairs[|pairs| - 1];
      WrittenPartsParse(init);
      var part := last.0 + "=" + last.1;
      assert IsPair(part, last.0, last.1);
      PairSplits(part, last.0, last.1);
      var parts := WrittenParts(pairs);
      assert parts[..|parts| - 1] == WrittenParts(init);
    }
  }

  // A spec written as modules with their levels, in any accepted spelling, and a level of its own at the end says
  // exactly that.
  lemma WrittenSpecParses(pairs: seq<(string, string)>, default: string)
    requires forall i :: 0 <= i < |pairs| ==> CleanPair(pairs[i])
    requires ':' !in default && '=' !in default && ParseLevel(default).Some?
    ensures ParseSpec(Join(WrittenParts(pairs) + [default], ':'))
            == Some(Spec(ParseLevel(default), WrittenPairs(pairs)))
  {
    WrittenPartsParse(pairs);
    var parts := WrittenParts(pairs) + [default];
    assert parts[..|parts| - 1] == WrittenParts(pairs);
    SplitOfJoin(parts, ':');
  }

  // ---- The registry ----

  class ModuleLevels {
    var levels: Levels

    constructor ()
      ensures levels == map[]
    {
      levels := map[];
    }

    method Set(name: string, level: int)
      modifies this
      ensures levels == old(levels)[name := level]
    {
      levels := levels[name := level];
    }

    method Get(name: string) returns (level: int)
      ensures level == LevelOf(levels, name)
    {
      if name in levels {
        return levels[name];
      }
      if DEFAULT_MODULE in levels {
        return levels[DEFAULT_MODULE];
      }
      level := INFO;
    }

    // All or nothing: a spec that is not accepted changes no level.
    method SetSpec(spec: string) returns (ok: bool)
      modifies this
      ensures ok <==> ParseSpec(spec).Some?
      ensures levels == if ok then Apply(old(levels), ParseSpec(spec).value) else old(levels)
    {
      var logLevelByModule := Split(spec, ':');
      var defaultLogLevel := MIN_LOG_LEVEL - 1;
      var moduleLevelPairs: seq<(string, int)> := [];
      for i := 0 to |logLevelByModule|
        invariant levels == old(levels)
        invariant var default := if defaultLogLevel >= MIN_LOG_LEVEL then Some(defaultLogLevel) else None;
                  ParseParts(logLevelByModule[..i]) == Some(Spec(default, moduleLevelPairs))
      {
        var part := logLevelByModule[i];
        assert logLevelByModule[..i + 1][..i] == logLevelByModule[..i];
        ghost var upTo := ParseParts(logLevelByModule[..i + 1]);
        assert upTo == AddPart(ParseParts(logLevelByModule[..i]).value, part);
        if '=' in part {
          SplitWithSeparator(part, '=');
          var moduleAndLevelPair := Split(part, '=');
          var logLevel := ParseLevel(moduleAndLevelPair[1]);
          if logLevel.None? {
            RejectedPrefix(logLevelByModule, i + 1);
            return false;
          }
          moduleLevelPairs := moduleLevelPairs + [(moduleAndLevelPair[0], logLevel.value)];
        } else {
          if defaultLogLevel >= MIN_LOG_LEVEL {
            RejectedPrefix(logLevelByModule, i + 1);
            return false;
          }
          var level := ParseLevel(part);
          if level.None? {
            RejectedPrefix(logLevelByModule, i + 1);
            return false;
          }
          defaultLogLevel := level.value;
        }
      }
      assert logLevelByModule[..|logLevelByModule|] == logLevelByModule;

      if defaultLogLevel >= MIN_LOG_LEVEL {
        Set(DEFAULT_MODULE, defaultLogLevel);
      } else {
        Set(DEFAULT_MODULE, INFO);
      }
      ghost var base := levels;
      for i := 0 to |moduleLevelPairs|
        invariant levels == SetAll(base, moduleLevelPairs[..i])
      {
        assert moduleLevelPairs[..i + 1][..i] == moduleLevelPairs[..i];
        Set(moduleLevelPairs[i].0, moduleLevelPairs[i].1);
      }
      assert moduleLevelPairs[..|moduleLevelPairs|] == moduleLevelPairs;
      ok := true;
    }

    // The modules come in whatever order the map yields them.
    method GetSpec(order: seq<string>) returns (printed: string)
      requires Enumerates(order, levels.Keys)
      ensures printed == Print(levels, order)
    {
      var spec := "";
      var defaultDebugLevel := "";
      for i := 0 to |order|
        invariant spec == PrintPairs(levels, order[..i])
        invariant defaultDebugLevel ==
                  if DEFAULT_MODULE in order[..i] then LevelString(levels[DEFAULT_MODULE]) else ""
      {
        assert order[..i + 1][..i] == order[..i];
        var name := order[i];
        assert name in levels.Keys;
        if name == DEFAULT_MODULE {
          defaultDebugLevel := LevelString(levels[name]);
        } else {
          spec := spec + (name + "=" + LevelString(levels[name])) + ":";
        }
      }
      assert order[..|order|] == order;
      printed := spec + defaultDebugLevel;
    }
  }

  lemma {:induction false} RejectedPrefix(parts: seq<string>, i: nat)
    requires i <= |parts| && ParseParts(parts[..i]).None?
    ensures ParseParts(parts).None?
    decreases |parts| - i
  {
    if i == |parts| {
      assert parts[..i] == parts;
    } else {
      assert parts[..i + 1][..i] == parts[..i];
      RejectedPrefix(parts, i + 1);
    }
  }

  // ---- Printing and setting back ----

  ghost predicate Enumerates(order: seq<string>, keys: set<string>) {
    && (forall i, j :: 0 <= i < j < |order| ==> order[i] != order[j])
    && (forall name :: name in order <==> name in keys)
  }

  function PrintPair(levels: Levels, name: string): string
    requires name in levels
  {
    name + "=" + LevelString(levels[name])
  }

  function PrintPairs(levels: Levels, order: seq<string>): string
    requires forall name :: name in order ==> name in levels
  {
    if order == [] then ""
    else
      var init, name := order[..|order| - 1], order[|order| - 1];
      if name == DEFAULT_MODULE then PrintPairs(levels, init)
      else PrintPairs(levels, init) + PrintPair(levels, name) + ":"
  }

  function Print(levels: Levels, order: seq<string>): string
    requires forall name :: name in order ==> name in levels
    requires DEFAULT_MODULE in levels ==> DEFAULT_MODULE in order
  {
    PrintPairs(levels, order) + if DEFAULT_MODULE in levels then LevelString(levels[DEFAULT_MODULE]) else ""
  }

  predicate CleanEntry(name: string, level: int) {
    ':' !in name && '=' !in name && Named(level)
  }

  // A default, module names free of the separators, and levels that have names.
  predicate Clean(levels: Levels) {
    DEFAULT_MODULE in levels && forall name :: name in levels ==> CleanEntry(name, levels[name])
  }

  // The pairs an order lists, without the default.
  function PairsOf(levels: Levels, order: seq<string>): seq<(string, int)>
    requires forall name :: name in order ==> name in levels
  {
    if order == [] then []
    else
      var init, name := order[..|order| - 1], order[|order| - 1];
      PairsOf(levels, init) + if name == DEFAULT_MODULE then [] else [(name, levels[name])]
  }

  function PrintedParts(levels: Levels, order: seq<string>): seq<string>
    requires forall name :: name in order ==> name in levels
  {
    if order == [] then []
    else
      var init, name := order[..|order| - 1], order[|order| - 1];
      PrintedParts(levels, init) + if name == DEFAULT_MODULE then [] else [PrintPair(levels, name)]
  }

  lemma PairHasNoColon(levels: Levels, name: string)
    requires name in levels && CleanEntry(name, levels[name])
    ensures ':' !in PrintPair(levels, name)
  {
    LevelNamesParseBack(levels[name]);
  }

  // If s splits off the parts before part + ":" + tail, then s + part + ":" splits off one more before tail.
  lemma OneMoreSplit(s: string, part: string, tail: string, parts: seq<string>)
    requires ':' !in part
    requires Split(s + (part + [':'] + tail), ':') == parts + Split(part + [':'] + tail, ':')
    ensures Split(s + part + ":" + tail, ':') == parts + [part] + Split(tail, ':')
  {
    assert s + part + ":" + tail == s + (part + [':'] + tail);
    SplitHead(part, tail, ':');
    assert parts + [part] + Split(tail, ':') == parts + ([part] + Split(tail, ':'));
  }

  // The printed pairs split into one part each, whatever follows them.
  lemma {:induction false} SplitPrinted(levels: Levels, order: seq<string>, tail: string)
    requires forall name :: name in order ==> name in levels && CleanEntry(name, levels[name])
    ensures Split(PrintPairs(levels, order) + tail, ':') == PrintedParts(levels, order) + Split(tail, ':')
    decreases |order|
  {
    if order == [] {
      assert "" + tail == tail;
    } else {
      var init, name := order[..|order| - 1], order[|order| - 1];
      if name == DEFAULT_MODULE {
        SplitPrinted(levels, init, tail);
      } else {
        var part := PrintPair(levels, name);
        PairHasNoColon(levels, name);
        SplitPrinted(levels, init, part + [':'] + tail);
        OneMoreSplit(PrintPairs(levels, init), part, tail, PrintedParts(levels, init));
      }
    }
  }

  lemma PairParses(levels: Levels, name: string, spec: Spec)
    requires name in levels && CleanEntry(name, levels[name])
    ensures AddPart(spec, PrintPair(levels, name)) == Some(spec.(pairs := spec.pairs + [(name, levels[name])]))
  {
    var level := LevelString(levels[name]);
    LevelNamesParseBack(levels[name]);
    assert PrintPair(levels, name) == name + ['='] + level;
    SplitHead(name, level, '=');
    SplitAtom(level, '=');
    assert PrintPair(levels, name)[|name|] == '=';
  }

  lemma {:induction false} PrintedPartsParse(levels: Levels, order: seq<string>)
    requires forall name :: name in order ==> name in levels && CleanEntry(name, levels[name])
    ensures ParseParts(PrintedParts(levels, order)) == Some(Spec(None, PairsOf(levels, order)))
  {
    if order != [] {
      var init, name := order[..|order| - 1], order[|order| - 1];
      PrintedPartsParse(levels, init);
      if name != DEFAULT_MODULE {
        PairParses(levels, name, Spec(None, PairsOf(levels, init)));
        var parts := PrintedParts(levels, order);
        assert parts[..|parts| - 1] == PrintedParts(levels, init);
      } else {
        assert PrintedParts(levels, order) == PrintedParts(levels, init);
        assert PairsOf(levels, order) == PairsOf(levels, init);
      }
    }
  }

  // What the pairs of an order set: its modules, without the default.
  function Modules(levels: Levels, order: seq<string>): Levels
    requires forall name :: name in order ==> name in levels
  {
    map name | name in order && name != DEFAULT_MODULE :: levels[name]
  }

  lemma {:induction false} ListedIfOrdered(levels: Levels, order: seq<string>, name: string)
    requires forall name :: name in order ==> name in levels
    ensures LastListed(PairsOf(levels, order), name)
            == if name in order && name != DEFAULT_MODULE then Some(levels[name]) else None
  {
    if order != [] {
      var init, last := order[..|order| - 1], order[|order| - 1];
      ListedIfOrdered(levels, init, name);
      assert order == init + [last];
      var pairs := PairsOf(levels, order);
      if last == DEFAULT_MODULE {
        assert pairs == PairsOf(levels, init);
      } else {
        assert pairs[..|pairs| - 1] == PairsOf(levels, init);
      }
    }
  }

  lemma SettingPairsOverrides(levels: Levels, order: seq<string>, base: Levels)
    requires forall name :: name in order ==> name in levels
    ensures SetAll(base, PairsOf(levels, order)) == base + Modules(levels, order)
  {
    var set_, sum := SetAll(base, PairsOf(levels, order)), base + Modules(levels, order);
    forall name
      ensures name in set_ <==> name in sum
      ensures name in set_ ==> set_[name] == sum[name]
    {
      SetAllSetsLast(base, PairsOf(levels, order), name);
      ListedIfOrdered(levels, order, name);
    }
  }

  lemma PrintedSpecParses(levels: Levels, order: seq<string>)
    requires Clean(levels) && Enumerates(order, levels.Keys)
    ensures ParseSpec(Print(levels, order)) == Some(Spec(Some(levels[DEFAULT_MODULE]), PairsOf(levels, order)))
  {
    var default := LevelString(levels[DEFAULT_MODULE]);
    LevelNamesParseBack(levels[DEFAULT_MODULE]);
    SplitPrinted(levels, order, default);
    SplitAtom(default, ':');
    PrintedPartsParse(levels, order);
    var parts := PrintedParts(levels, order) + [default];
    assert parts[..|parts| - 1] == PrintedParts(levels, order);
  }

  // Setting the spec printed from a clean state overrides any other state with it.
  lemma PrintThenSet(levels: Levels, order: seq<string>, other: Levels)
    requires Clean(levels) && Enumerates(order, levels.Keys)
    ensures ParseSpec(Print(levels, order)).Some?
    ensures Apply(other, ParseSpec(Print(levels, order)).value) == other + levels
  {
    PrintedSpecParses(levels, order);
    var base := other[DEFAULT_MODULE := levels[DEFAULT_MODULE]];
    SettingPairsOverrides(levels, order, base);
    ModulesAndDefault(levels, order, other);
  }

  lemma ModulesAndDefault(levels: Levels, order: seq<string>, other: Levels)
    requires DEFAULT_MODULE in levels && Enumerates(order, levels.Keys)
    ensures other[DEFAULT_MODULE := levels[DEFAULT_MODULE]] + Modules(levels, order) == other + levels
  {
    assert forall name :: name in order <==> name in levels;
  }

  // ---- Exactly when the printed spec can be set back ----

  ghost predicate SetsBack(levels: Levels, order: seq<string>, other: Levels)
    requires Enumerates(order, levels.Keys)
  {
    var parsed := ParseSpec(Print(levels, order));
    parsed.Some? && Apply(other, parsed.value) == other + levels
  }

  ghost predicate RoundTrips(levels: Levels) {
    forall order, other: Levels :: Enumerates(order, levels.Keys) ==> SetsBack(levels, order, other)
  }

  lemma {:induction false} ParsedPairsAreClean(parts: seq<string>)
    requires forall p :: p in parts ==> ':' !in p
    ensures ParseParts(parts).Some? ==>
              && (forall i :: 0 <= i < |ParseParts(parts).value.pairs| ==>
                    CleanEntry(ParseParts(parts).value.pairs[i].0, ParseParts(parts).value.pairs[i].1))
              && (ParseParts(parts).value.default.Some? ==> Named(ParseParts(parts).value.default.value))
  {
    if parts != [] {
      var part := parts[|parts| - 1];
      ParsedPairsAreClean(parts[..|parts| - 1]);
      assert part in parts;
      PiecesOf(part, '=', ':');
    }
  }

  // A piece of a string has no character the string lacks.
  lemma {:induction false} PiecesOf(s: string, sep: char, c: char)
    requires c !in s
    ensures forall p :: p in Split(s, sep) ==> c !in p
  {
    if s != [] {
      assert s == [s[0]] + s[1..];
      PiecesOf(s[1..], sep, c);
    }
  }

  lemma {:induction false} SetAllClean(levels: Levels, pairs: seq<(string, int)>)
    requires Clean(levels) && forall i :: 0 <= i < |pairs| ==> CleanEntry(pairs[i].0, pairs[i].1)
    ensures Clean(SetAll(levels, pairs))
  {
    if pairs != [] {
      SetAllClean(levels, pairs[..|pairs| - 1]);
    }
  }

  lemma {:induction false} SomeOrder(keys: set<string>) returns (order: seq<string>)
    ensures Enumerates(order, keys)
    decreases |keys|
  {
    if keys == {} {
      order := [];
    } else {
      var name :| name in keys;
      var rest := SomeOrder(keys - {name});
      order := rest + [name];
    }
  }

  // Whatever the iteration order and whatever it is set on, the printed spec brings a state back if and only if
  // the state has a default, module names without ':' and '=', and only the six named levels.
  lemma RoundTripIff(levels: Levels)
    ensures RoundTrips(levels) <==> Clean(levels)
  {
    if Clean(levels) {
      forall order, other: Levels | Enumerates(order, levels.Keys) ensures SetsBack(levels, order, other) {
        PrintThenSet(levels, order, other);
      }
    }
    if RoundTrips(levels) {
      var order := SomeOrder(levels.Keys);
      assert SetsBack(levels, order, map[]);
      var printed := Print(levels, order);
      ParsedPairsAreClean(Split(printed, ':'));
      var spec := ParseSpec(printed).value;
      SetAllClean(map[DEFAULT_MODULE := if spec.default.Some? then spec.default.value else INFO], spec.pairs);
      assert map[] + levels == levels;
    }
  }
}
