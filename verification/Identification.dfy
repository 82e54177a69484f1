/** Filtering the commands segment by segment finds the deepest command. */
module Identification {
  import opened Optionals
  import opened Tokens
  import opened Commands
  import opened Semantics
  import opened Grammar

  /** The commands whose path starts with `segments`. */
  function Extending(commands: seq<Command>, segments: seq<string>): seq<Command> {
    if commands == [] then []
    else
      var last := commands[|commands| - 1];
      Extending(commands[..|commands| - 1], segments) + if segments <= last.path then [last] else []
  }

  /** The command matched so far: the last one with the longest path in `segments`. */
  function MatchOf(commands: seq<Command>, segments: seq<string>): Optional<Command> {
    var depth := Depth(commands, segments);
    if depth == 0 then Absent else LastWithPath(commands, segments[..depth])
  }

  /** What the identifying state holds after collecting `segments`. */
  function Identified(commands: seq<Command>, segments: seq<string>): Identification {
    Identification(Extending(commands, segments), MatchOf(commands, segments), LastDefault(commands, Absent), segments)
  }

  lemma {:induction false} ExtendingMeansExtends(commands: seq<Command>, segments: seq<string>)
    ensures Extending(commands, segments) != [] <==> Extends(commands, segments)
  {
    if commands != [] {
      var front := commands[..|commands| - 1];
      ExtendingMeansExtends(front, segments);
      forall i | 0 <= i < |commands| && segments <= commands[i].path
        ensures i == |commands| - 1 || Extends(front, segments)
      {
        assert i < |front| ==> front[i] == commands[i];
      }
      if Extends(front, segments) {
        var i :| 0 <= i < |front| && segments <= front[i].path;
        assert commands[i] == front[i];
      }
    }
  }

  lemma {:induction false} ExtendingStep(commands: seq<Command>, segments: seq<string>)
    ensures commands == [] ==> Extending(commands, segments) == []
    ensures commands != [] ==>
              var last := commands[|commands| - 1];
              Extending(commands, segments)
              == Extending(commands[..|commands| - 1], segments) + if segments <= last.path then [last] else []
  {
  }

  lemma {:induction false} ExtendingNothing(commands: seq<Command>)
    ensures Extending(commands, []) == commands
  {
    hide Extending;
    ExtendingStep(commands, []);
    if commands != [] {
      var front := commands[..|commands| - 1];
      ExtendingNothing(front);
      assert front + [commands[|commands| - 1]] == commands;
    }
  }

  lemma {:induction false} PrefixSnoc(segments: seq<string>, token: string, path: seq<string>)
    ensures segments + [token] <= path <==>
            segments <= path && |path| > |segments| && path[|segments|] == token
    ensures segments + [token] == path <==> segments + [token] <= path && |path| == |segments| + 1
  {
    if segments + [token] <= path {
      assert path[..|segments|] == (segments + [token])[..|segments|];
      assert path[|segments|] == (segments + [token])[|segments|];
    }
  }

  /** Narrowing by one more segment keeps exactly the commands extending it. */
  lemma {:induction false} NarrowExtending(commands: seq<Command>, segments: seq<string>, token: string)
    ensures Narrow(Extending(commands, segments), |segments| + 1, token) == Extending(commands, segments + [token])
  {
    ExtendingStep(commands, segments);
    ExtendingStep(commands, segments + [token]);
    if commands != [] {
      hide Extending, Narrow;
      var front, last := commands[..|commands| - 1], commands[|commands| - 1];
      NarrowExtending(front, segments, token);
      PrefixSnoc(segments, token, last.path);
      FilterStep(Extending(front, segments), last, |segments| + 1, token, Absent, Absent);
      assert Extending(front, segments) + [] == Extending(front, segments);
      assert Extending(front, segments + [token]) + [] == Extending(front, segments + [token]);
    }
  }

  lemma {:induction false} LastCompleteIsLastWithPath(
    commands: seq<Command>, segments: seq<string>, token: string, previous: Optional<Command>)
    ensures var found := LastWithPath(commands, segments + [token]);
            LastComplete(Extending(commands, segments), |segments| + 1, token, previous)
            == if found.Present? then found else previous
  {
    ExtendingStep(commands, segments);
    LastWithPathStep(commands, segments + [token]);
    if commands != [] {
      hide Extending, LastComplete, LastWithPath;
      var front, last := commands[..|commands| - 1], commands[|commands| - 1];
      LastCompleteIsLastWithPath(front, segments, token, previous);
      PrefixSnoc(segments, token, last.path);
      FilterStep(Extending(front, segments), last, |segments| + 1, token, previous, Absent);
      assert Extending(front, segments) + [] == Extending(front, segments);
    }
  }

  lemma {:induction false} LastWithPathStep(commands: seq<Command>, path: seq<string>)
    ensures commands == [] ==> LastWithPath(commands, path) == Absent
    ensures commands != [] ==>
              var last := commands[|commands| - 1];
              LastWithPath(commands, path)
              == if last.path == path then Present(last) else LastWithPath(commands[..|commands| - 1], path)
  {
  }

  lemma {:induction false} PathExtends(commands: seq<Command>, words: seq<string>, n: nat)
    requires n <= |words|
    ensures IsPath(commands, words[..n]) ==> Extends(commands, words[..n])
    ensures Extends(commands, words) ==> Extends(commands, words[..n])
  {
    if IsPath(commands, words[..n]) {
      var i :| 0 <= i < |commands| && commands[i].path == words[..n];
      assert words[..n] <= commands[i].path;
    }
    if Extends(commands, words) {
      var i :| 0 <= i < |commands| && words <= commands[i].path;
      assert words[..n] <= commands[i].path;
    }
  }

  /** Words behind segments that nothing extends change neither what is collected
      nor what is matched. */
  lemma {:induction false} CollectedStops(commands: seq<Command>, segments: seq<string>, words: seq<string>)
    requires segments <= words
    requires Extends(commands, segments)
    requires |words| > |segments| ==> !Extends(commands, words[..|segments| + 1])
    ensures Collected(commands, words) == |segments|
    ensures Depth(commands, words) == Depth(commands, segments)
    decreases |words|
  {
    if |words| == |segments| {
      assert words == segments;
      assert Collected(commands, segments) == |segments|;
    } else {
      var shorter := words[..|words| - 1];
      assert words[..|words|] == words;
      PathExtends(commands, words, |segments| + 1);
      PathExtends(commands, words, |words|);
      if |shorter| > |segments| {
        assert shorter[..|segments| + 1] == words[..|segments| + 1];
      }
      CollectedStops(commands, segments, shorter);
    }
  }

  /** One more segment, in the state and in the reference. */
  lemma {:induction false} IdentifiedStep(commands: seq<Command>, segments: seq<string>, token: string)
    ensures var more := segments + [token];
            var matched := LastComplete(Extending(commands, segments), |more|, token, MatchOf(commands, segments));
            && Narrow(Extending(commands, segments), |more|, token) == Extending(commands, more)
            && matched == MatchOf(commands, more)
  {
    var more := segments + [token];
    NarrowExtending(commands, segments, token);
    LastCompleteIsLastWithPath(commands, segments, token, MatchOf(commands, segments));
    assert more[..|more| - 1] == segments;
    assert more[..|more|] == more;
    var depth := Depth(commands, segments);
    assert segments[..depth] == more[..depth];
  }

  lemma {:induction false} MaybeCommandMeansExtends(commands: seq<Command>, token: string)
    ensures MaybeCommand(commands, token) <==> Extends(commands, [token])
  {
    forall i | 0 <= i < |commands|
      ensures commands[i].path != [] && commands[i].path[0] == token <==> [token] <= commands[i].path
    {
    }
  }

  lemma {:induction false} NarrowFirst(commands: seq<Command>, token: string)
    ensures Narrow(commands, 1, token) == Extending(commands, [token])
    ensures LastComplete(commands, 1, token, Absent) == MatchOf(commands, [token])
  {
    ExtendingNothing(commands);
    assert [] + [token] == [token];
    IdentifiedStep(commands, [], token);
  }

  /** Entering the identifying state with the first segment. */
  lemma {:induction false} IdentifiedFirst(c: Context, event: Token)
    requires MaybeCommand(c.commands, event.text)
    ensures IdentifyEnter(c, NOTHING_IDENTIFIED, event) == (Identified(c.commands, [event.text]), Continue)
    ensures Extends(c.commands, [event.text])
  {
    hide Extending, MatchOf, Narrow, LastComplete, LastDefault;
    MaybeCommandMeansExtends(c.commands, event.text);
    ExtendingMeansExtends(c.commands, [event.text]);
    NarrowFirst(c.commands, event.text);
    assert [] + Extending(c.commands, [event.text]) == Extending(c.commands, [event.text]);
    assert [] + [event.text] == [event.text];
  }

  /** Which command a search finds, said directly: the deepest path among the words,
      and the last command with that path. */
  lemma {:induction false} DepthIsDeepest(commands: seq<Command>, words: seq<string>)
    ensures var depth := Depth(commands, words);
            forall n :: depth < n <= |words| ==> !IsPath(commands, words[..n])
  {
    if words != [] {
      assert words[..|words|] == words;
      var shorter := words[..|words| - 1];
      DepthIsDeepest(commands, shorter);
      forall n | 0 <= n < |words|
        ensures shorter[..n] == words[..n]
      {
      }
    }
  }

  lemma {:induction false} LastWithPathIsLast(commands: seq<Command>, path: seq<string>)
    requires IsPath(commands, path)
    ensures exists i :: 0 <= i < |commands|
                        && LastWithPath(commands, path) == Present(commands[i]) && commands[i].path == path
                        && forall j :: i < j < |commands| ==> commands[j].path != path
  {
    var front, last := commands[..|commands| - 1], commands[|commands| - 1];
    if last.path != path {
      LastWithPathIsLast(front, path);
      var i :| 0 <= i < |front| && LastWithPath(front, path) == Present(front[i]) && front[i].path == path
               && forall j :: i < j < |front| ==> front[j].path != path;
      assert commands[i] == front[i];
      forall j | i < j < |commands|
        ensures commands[j].path != path
      {
        assert j < |front| ==> front[j] == commands[j];
      }
    }
  }
}
