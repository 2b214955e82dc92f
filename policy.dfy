/**
 * The capture agent's suppression rules, stated over plain values: which mouse
 * moves, scrolls and history changes become tracked events, and how keystrokes
 * edit the buffer that is flushed after an idle pause. The agent classes
 * follow these functions one handler call at a time; the lemmas here say what
 * a whole run of handler calls does.
 */
module CapturePolicy {
  import opened Wrappers
  import opened Dom

  /** A hover over one element is reported again only after this many ms. */
  const HEARTBEAT_MS := 10000
  /** The keystroke buffer is flushed this many ms after the last key. */
  const IDLE_MS := 4000

  // ---------------------------------------------------------------------------
  // Mouse moves

  /** The mouse throttle's memory: the last reported element and when. */
  datatype MouseState = MouseState(lastElement: Option<ElementInfo>, lastActionTime: int)

  /** One `mousemove`: its time and the snapshot of the element under the pointer. */
  datatype Move = Move(time: int, target: Option<ElementInfo>)

  /** Two snapshots denote the same target when their `id` and `tag` agree. */
  predicate SameTarget(a: ElementInfo, b: ElementInfo) {
    a.id == b.id && a.tag == b.tag
  }

  /**
   * The throttle test: there is an element under the pointer, and either more
   * than ten seconds have passed, or nothing was reported yet, or the target changed.
   */
  predicate MouseEmits(s: MouseState, m: Move) {
    m.target.Some?
    && (m.time - s.lastActionTime > HEARTBEAT_MS
        || s.lastElement.None?
        || !SameTarget(m.target.value, s.lastElement.value))
  }

  /** The throttle's memory after one move: updated on a report, untouched otherwise. */
  function MouseStep(s: MouseState, m: Move): MouseState {
    if MouseEmits(s, m) then MouseState(m.target, m.time) else s
  }

  /** A run of moves: the state after it and the moves that were reported, in order. */
  function MouseRun(s: MouseState, moves: seq<Move>): (r: (MouseState, seq<Move>))
    ensures |r.1| <= |moves|
    ensures forall k :: 0 <= k < |r.1| ==> r.1[k].target.Some?
    decreases |moves|
  {
    if moves == [] then (s, [])
    else
      var rest := MouseRun(MouseStep(s, moves[0]), moves[1..]);
      if MouseEmits(s, moves[0]) then (rest.0, [moves[0]] + rest.1) else rest
  }

  /** Running one more move is one more handler step. */
  lemma {:induction false} MouseRunSnoc(s: MouseState, moves: seq<Move>, m: Move)
    ensures var r := MouseRun(s, moves);
      MouseRun(s, moves + [m])
        == (MouseStep(r.0, m), r.1 + (if MouseEmits(r.0, m) then [m] else []))
    decreases |moves|
  {
    if moves == [] {
      assert moves + [m] == [m] && [m][0] == m && [m][1..] == [];
      var s1 := MouseStep(s, m);
      assert MouseRun(s1, []) == (s1, []);
      if MouseEmits(s, m) {
        assert MouseRun(s, [m]) == (s1, [m] + []);
        assert [m] + [] == [] + [m];
      } else {
        assert MouseRun(s, [m]) == (s1, []);
        assert [] + [] == MouseRun(s, moves).1;
      }
    } else {
      assert (moves + [m])[0] == moves[0];
      assert (moves + [m])[1..] == moves[1..] + [m];
      var s' := MouseStep(s, moves[0]);
      MouseRunSnoc(s', moves[1..], m);
      var r' := MouseRun(s', moves[1..]);
      var tail := if MouseEmits(r'.0, m) then [m] else [];
      assert [moves[0]] + (r'.1 + tail) == ([moves[0]] + r'.1) + tail;
    }
  }

  /** A run split in two: the second part starts from the state the first left. */
  lemma {:induction false} MouseRunConcat(s: MouseState, a: seq<Move>, b: seq<Move>)
    ensures var ra := MouseRun(s, a);
      var rb := MouseRun(ra.0, b);
      MouseRun(s, a + b) == (rb.0, ra.1 + rb.1)
    decreases |a|
  {
    if a == [] {
      assert [] + b == b;
      assert [] + MouseRun(s, b).1 == MouseRun(s, b).1;
    } else {
      assert (a + b)[0] == a[0];
      assert (a + b)[1..] == a[1..] + b;
      var s' := MouseStep(s, a[0]);
      MouseRunConcat(s', a[1..], b);
      var ra' := MouseRun(s', a[1..]);
      var rb := MouseRun(ra'.0, b);
      assert [a[0]] + (ra'.1 + rb.1) == ([a[0]] + ra'.1) + rb.1;
    }
  }

  /** The state after a run remembers the last reported move, or nothing new. */
  lemma {:induction false} MouseRunLast(s: MouseState, moves: seq<Move>)
    ensures var r := MouseRun(s, moves);
      r.0 == if r.1 == [] then s else MouseState(r.1[|r.1| - 1].target, r.1[|r.1| - 1].time)
    decreases |moves|
  {
    if moves != [] {
      MouseRunLast(MouseStep(s, moves[0]), moves[1..]);
    }
  }

  /** Each reported time lies more than ten seconds after the one before it (after `t0` for the first). */
  predicate Spaced(t0: int, reported: seq<Move>)
    decreases |reported|
  {
    reported == []
    || (reported[0].time - t0 > HEARTBEAT_MS && Spaced(reported[0].time, reported[1..]))
  }

  /**
   * Hovering one element: once that element has been reported, every further
   * report over it comes more than ten seconds after the previous one.
   */
  lemma {:induction false} HoverHeartbeatSpacing(s: MouseState, moves: seq<Move>, e: ElementInfo)
    requires s.lastElement.Some? && SameTarget(s.lastElement.value, e)
    requires forall k :: 0 <= k < |moves| ==> moves[k].target.Some? && SameTarget(moves[k].target.value, e)
    ensures Spaced(s.lastActionTime, MouseRun(s, moves).1)
    decreases |moves|
  {
    if moves != [] {
      var m := moves[0];
      var s' := MouseStep(s, m);
      HoverHeartbeatSpacing(s', moves[1..], e);
      var rest := MouseRun(s', moves[1..]).1;
      if MouseEmits(s, m) {
        assert ([m] + rest)[0] == m && ([m] + rest)[1..] == rest;
      } else {
        assert s' == s;
      }
    }
  }

  // ---------------------------------------------------------------------------
  // Scrolls and history changes: report a value only when it differs from the last

  /**
   * A run of observed values (scroll offsets, or pathnames on `popstate`): the
   * remembered value after it and the values that were reported, in order.
   */
  function ChangeRun<T(==)>(last: T, xs: seq<T>): (r: (T, seq<T>))
    ensures |r.1| <= |xs|
    decreases |xs|
  {
    if xs == [] then (last, [])
    else if xs[0] != last then
      var rest := ChangeRun(xs[0], xs[1..]);
      (rest.0, [xs[0]] + rest.1)
    else ChangeRun(last, xs[1..])
  }

  /** Observing one more value is one more handler step. */
  lemma {:induction false} ChangeRunSnoc<T>(last: T, xs: seq<T>, x: T)
    ensures var r := ChangeRun(last, xs);
      ChangeRun(last, xs + [x]) == if x != r.0 then (x, r.1 + [x]) else r
    decreases |xs|
  {
    if xs == [] {
      assert xs + [x] == [x] && [x][1..] == [];
      assert [x] + [] == [x] && [] + [x] == [x];
    } else {
      assert (xs + [x])[0] == xs[0];
      assert (xs + [x])[1..] == xs[1..] + [x];
      if xs[0] != last {
        ChangeRunSnoc(xs[0], xs[1..], x);
        var r' := ChangeRun(xs[0], xs[1..]);
        var tail := if x != r'.0 then [x] else [];
        assert [xs[0]] + (r'.1 + tail) == ([xs[0]] + r'.1) + tail;
      } else {
        ChangeRunSnoc(last, xs[1..], x);
      }
    }
  }

  /** After a run the remembered value is the last one observed. */
  lemma {:induction false} ChangeRunFinal<T>(last: T, xs: seq<T>)
    ensures ChangeRun(last, xs).0 == if xs == [] then last else xs[|xs| - 1]
    decreases |xs|
  {
    if xs != [] {
      if xs[0] != last {
        ChangeRunFinal(xs[0], xs[1..]);
      } else {
        ChangeRunFinal(last, xs[1..]);
      }
    }
  }

  /** No reported value repeats the one reported (or remembered) just before it. */
  predicate NoRepeats<T(==)>(last: T, ys: seq<T>)
    decreases |ys|
  {
    ys == [] || (ys[0] != last && NoRepeats(ys[0], ys[1..]))
  }

  lemma {:induction false} ChangeRunNoRepeats<T>(last: T, xs: seq<T>)
    ensures NoRepeats(last, ChangeRun(last, xs).1)
    decreases |xs|
  {
    if xs != [] {
      if xs[0] != last {
        ChangeRunNoRepeats(xs[0], xs[1..]);
        var rest := ChangeRun(xs[0], xs[1..]).1;
        assert ([xs[0]] + rest)[0] == xs[0] && ([xs[0]] + rest)[1..] == rest;
      } else {
        ChangeRunNoRepeats(last, xs[1..]);
      }
    }
  }

  /** Nothing is reported exactly when every observed value equals the remembered one. */
  lemma {:induction false} ChangeRunQuiet<T>(last: T, xs: seq<T>)
    ensures ChangeRun(last, xs).1 == [] <==> forall k :: 0 <= k < |xs| ==> xs[k] == last
    decreases |xs|
  {
    if xs != [] && xs[0] == last {
      ChangeRunQuiet(last, xs[1..]);
      assert forall k :: 1 <= k < |xs| ==> xs[k] == xs[1..][k - 1];
    }
  }

  /** Every reported value was observed. */
  lemma {:induction false} ChangeRunObserved<T>(last: T, xs: seq<T>)
    ensures forall y :: y in ChangeRun(last, xs).1 ==> y in xs
    decreases |xs|
  {
    if xs != [] {
      if xs[0] != last {
        ChangeRunObserved(xs[0], xs[1..]);
      } else {
        ChangeRunObserved(last, xs[1..]);
      }
    }
  }

  // ---------------------------------------------------------------------------
  // Keystrokes

  const ENTER := "Enter"
  const BACKSPACE := "Backspace"

  /** The element that has focus is a text entry: an INPUT, a TEXTAREA or contentEditable. */
  predicate IsTextEntry(active: Option<Element>) {
    active.Some?
    && (active.value.tagName == "INPUT" || active.value.tagName == "TEXTAREA" || active.value.isContentEditable)
  }

  /**
   * The edit one `keydown` makes to the buffer: a one-character key is appended,
   * Enter appends a newline, Backspace drops the last character (if any), and
   * every other key (Shift, arrows, ...) leaves the buffer as it is.
   */
  function EditBuffer(buffer: string, key: string): string {
    if |key| == 1 then buffer + key
    else if key == ENTER then buffer + "\n"
    else if key == BACKSPACE then (if buffer == [] then [] else buffer[..|buffer| - 1])
    else buffer
  }

  /** The buffer after a run of keys. */
  function ApplyKeys(buffer: string, keys: seq<string>): string
    decreases |keys|
  {
    if keys == [] then buffer else ApplyKeys(EditBuffer(buffer, keys[0]), keys[1..])
  }

  /** The keys glued together. */
  function Concat(keys: seq<string>): string
    decreases |keys|
  {
    if keys == [] then "" else keys[0] + Concat(keys[1..])
  }

  /** A Backspace right after a typed character takes it back. */
  lemma BackspaceUndoes(buffer: string, key: string)
    requires |key| == 1
    ensures EditBuffer(EditBuffer(buffer, key), BACKSPACE) == buffer
  {
    assert (buffer + key)[..|buffer|] == buffer;
  }

  /** One key changes the buffer by at most one character, and keeps all but its last. */
  lemma EditBufferBounds(buffer: string, key: string)
    ensures var r := EditBuffer(buffer, key);
      |buffer| - 1 <= |r| <= |buffer| + 1
      && (buffer == [] || r[..|buffer| - 1] == buffer[..|buffer| - 1])
  {
  }

  /** Typing only one-character keys appends exactly what was typed. */
  lemma {:induction false} TypedText(buffer: string, keys: seq<string>)
    requires forall k :: 0 <= k < |keys| ==> |keys[k]| == 1
    ensures ApplyKeys(buffer, keys) == buffer + Concat(keys)
    decreases |keys|
  {
    if keys != [] {
      TypedText(buffer + keys[0], keys[1..]);
      assert buffer + keys[0] + Concat(keys[1..]) == buffer + Concat(keys);
    }
  }

  /** A run of keys grows the buffer by at most one character per key. */
  lemma {:induction false} ApplyKeysLength(buffer: string, keys: seq<string>)
    ensures |ApplyKeys(buffer, keys)| <= |buffer| + |keys|
    decreases |keys|
  {
    if keys != [] {
      EditBufferBounds(buffer, keys[0]);
      ApplyKeysLength(EditBuffer(buffer, keys[0]), keys[1..]);
    }
  }

  /** As many Backspaces as the buffer is long empty it. */
  lemma {:induction false} BackspacesClear(buffer: string, n: nat)
    requires n >= |buffer|
    ensures ApplyKeys(buffer, seq(n, _ => BACKSPACE)) == ""
    decreases n
  {
    if n > 0 {
      var keys := seq(n, _ => BACKSPACE);
      assert keys[0] == BACKSPACE && keys[1..] == seq(n - 1, _ => BACKSPACE);
      BackspacesClear(EditBuffer(buffer, BACKSPACE), n - 1);
    }
  }

  /** h, e, l, l, o, Backspace, Backspace, p leaves `help`. */
  lemma HelpExample()
    ensures ApplyKeys("", ["h", "e", "l", "l", "o", BACKSPACE, BACKSPACE, "p"]) == "help"
  {
    var k8 := ["p"];
    var k7 := [BACKSPACE] + k8;
    var k6 := [BACKSPACE] + k7;
    var k5 := ["o"] + k6;
    var k4 := ["l"] + k5;
    var k3 := ["l"] + k4;
    var k2 := ["e"] + k3;
    calc {
      ApplyKeys("", ["h", "e", "l", "l", "o", BACKSPACE, BACKSPACE, "p"]);
      { assert ["h", "e", "l", "l", "o", BACKSPACE, BACKSPACE, "p"] == ["h"] + k2;
        ApplyKeysCons("", "h", k2); assert EditBuffer("", "h") == "h"; }
      ApplyKeys("h", k2);
      { ApplyKeysCons("h", "e", k3); assert EditBuffer("h", "e") == "he"; }
      ApplyKeys("he", k3);
      { ApplyKeysCons("he", "l", k4); assert EditBuffer("he", "l") == "hel"; }
      ApplyKeys("hel", k4);
      { ApplyKeysCons("hel", "l", k5); assert EditBuffer("hel", "l") == "hell"; }
      ApplyKeys("hell", k5);
      { ApplyKeysCons("hell", "o", k6); assert EditBuffer("hell", "o") == "hello"; }
      ApplyKeys("hello", k6);
      { ApplyKeysCons("hello", BACKSPACE, k7); assert EditBuffer("hello", BACKSPACE) == "hell"; }
      ApplyKeys("hell", k7);
      { ApplyKeysCons("hell", BACKSPACE, k8); assert EditBuffer("hell", BACKSPACE) == "hel"; }
      ApplyKeys("hel", k8);
      { assert k8 == ["p"] + []; ApplyKeysCons("hel", "p", []); assert EditBuffer("hel", "p") == "help"; }
      ApplyKeys("help", []);
    }
  }

  lemma ApplyKeysCons(buffer: string, key: string, keys: seq<string>)
    ensures ApplyKeys(buffer, [key] + keys) == ApplyKeys(EditBuffer(buffer, key), keys)
  {
    assert ([key] + keys)[1..] == keys;
  }

  /** A run of keys is the run of its first part followed by the rest. */
  lemma {:induction false} ApplyKeysSplit(buffer: string, a: seq<string>, b: seq<string>)
    ensures ApplyKeys(buffer, a + b) == ApplyKeys(ApplyKeys(buffer, a), b)
    decreases |a|
  {
    if a == [] {
      assert a + b == b;
    } else {
      assert (a + b)[1..] == a[1..] + b;
      ApplyKeysSplit(EditBuffer(buffer, a[0]), a[1..], b);
    }
  }
}
