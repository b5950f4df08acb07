/** Many events at once on one thread: whatever order they are opened, filled and emitted in, each is its own line. */
module EventRun {
  import opened EventLine
  import opened EventText
  import opened Event
  import opened Wrappers

  /** Two events with no storage in common but the thread's. */
  ghost predicate Apart(a: Ev, b: Ev)
    reads a, b
  {
    a != b && a.tls == b.tls && a.sbuf != b.sbuf && a.sbuf != b.heap && a.heap != b.sbuf && a.heap != b.heap
  }

  /** No two live events write to the same buffer, and at most one of them holds the thread's. */
  lemma ScratchExclusive(a: Ev, b: Ev)
    requires Apart(a, b) && a.Valid() && b.Valid() && !a.dead && !b.dead
    ensures a.buf != b.buf && (a.scratch == null || b.scratch == null)
    ensures b !in a.Writes() && b.buf !in a.Writes()
  {
  }

  /** The events of one thread that share a sink. */
  ghost predicate Fleet(evs: seq<Ev>)
    reads evs, set e | e in evs :: e.tls
  {
    && (forall i :: 0 <= i < |evs| ==> evs[i].sink == evs[0].sink && evs[i].tls == evs[0].tls && evs[i].Valid())
    && (forall i, j :: 0 <= i < j < |evs| ==> Apart(evs[i], evs[j]))
  }

  /** The state one event stands for: its line, or nothing once it is emitted. */
  ghost function View(e: Ev): Option<Line>
    requires e.Valid()
    reads e, e.tls, e.buf
  {
    if e.dead then None else Some(e.Model())
  }

  datatype Step = Open(name: string) | PutOn(i: nat, f: Field) | EmitOn(i: nat)

  /** The same run on strings: the open lines and what came out. */
  datatype Lines = Lines(open: seq<Option<Line>>, out: seq<string>)

  function Next(s: Lines, st: Step, enabled: bool): Lines {
    match st
    case Open(name) => s.(open := s.open + [if enabled then Some(Start(name)) else None])
    case PutOn(i, f) =>
      if i < |s.open| && s.open[i].Some? then s.(open := s.open[i := Some(Put(s.open[i].value, f))]) else s
    case EmitOn(i) =>
      if i < |s.open| && s.open[i].Some? then
        Lines(s.open[i := None], s.out + if enabled then [Close(s.open[i].value)] else [])
      else s
  }

  function RunOn(s: Lines, script: seq<Step>, enabled: bool): Lines
    decreases |script|
  {
    if script == [] then s else RunOn(Next(s, script[0], enabled), script[1..], enabled)
  }

  /** Nothing of o's was written. */
  twostate predicate Kept(o: Ev)
    reads o, o.buf, o.tls
  {
    unchanged(o) && (!old(o.dead) ==> unchanged(o.buf)) && (old(o.scratch) != null ==> unchanged(o.tls))
  }

  twostate lemma StillValid(o: Ev)
    requires old(o.Valid()) && Kept(o)
    requires (o.tls.buf == old(o.tls.buf) || fresh(o.tls.buf)) && o.tls.buf.Length <= MAX_LINE
    ensures o.Valid() && View(o) == old(View(o))
  {
    if !o.dead {
      assert o.Text() == old(o.Text());
    }
  }

  /** What a call on event i, which wrote to nothing of event j's, left of event j. */
  twostate lemma OneKept(evs: seq<Ev>, new i: nat, new j: nat)
    requires old(Fleet(evs)) && i < |evs| && j < |evs| && j != i
    requires evs[i].Valid() && evs[i].Grows() && Kept(evs[j])
    ensures evs[j].Valid() && View(evs[j]) == old(View(evs[j]))
    ensures Apart(evs[i], evs[j]) && Apart(evs[j], evs[i])
  {
    var e, o := evs[i], evs[j];
    assert if i < j then old(Apart(e, o)) else old(Apart(o, e));
    StillValid(o);
  }

  /** What a call on event i left of the others. */
  twostate lemma OthersKept(evs: seq<Ev>, new i: nat)
    requires old(Fleet(evs)) && i < |evs|
    requires evs[i].Valid() && evs[i].Grows()
    requires forall j :: 0 <= j < |evs| && j != i ==> Kept(evs[j])
    ensures forall j :: 0 <= j < |evs| && j != i ==> evs[j].Valid() && View(evs[j]) == old(View(evs[j]))
    ensures Fleet(evs)
  {
    hide View, Apart, Kept;
    forall j | 0 <= j < |evs| && j != i
      ensures evs[j].Valid() && View(evs[j]) == old(View(evs[j])) && Apart(evs[i], evs[j]) && Apart(evs[j], evs[i])
    {
      OneKept(evs, i, j);
    }
    PairsKept(evs, i);
  }

  twostate lemma PairsKept(evs: seq<Ev>, new i: nat)
    requires old(Fleet(evs)) && i < |evs|
    requires forall j :: 0 <= j < |evs| && j != i ==> Kept(evs[j]) && Apart(evs[i], evs[j]) && Apart(evs[j], evs[i])
    ensures forall j, k :: 0 <= j < k < |evs| ==> Apart(evs[j], evs[k])
  {
    assert forall j, k :: 0 <= j < k < |evs| ==> old(Apart(evs[j], evs[k]));
  }

  /** A call on event i writes nothing that another event reads. */
  lemma Foreign(evs: seq<Ev>, i: nat, j: nat)
    requires Fleet(evs) && i < |evs| && j < |evs| && i != j
    ensures evs[j] !in evs[i].Writes()
    ensures !evs[j].dead ==> evs[j].buf !in evs[i].Writes()
    ensures evs[j].scratch != null ==> evs[j].tls !in evs[i].Writes()
  {
    assert if i < j then Apart(evs[i], evs[j]) else Apart(evs[j], evs[i]);
  }

  lemma AllForeign(evs: seq<Ev>, i: nat)
    requires Fleet(evs) && i < |evs|
    ensures forall j :: 0 <= j < |evs| && j != i ==> evs[j] !in evs[i].Writes()
    ensures forall j :: 0 <= j < |evs| && j != i && !evs[j].dead ==> evs[j].buf !in evs[i].Writes()
    ensures forall j :: 0 <= j < |evs| && j != i && evs[j].scratch != null ==> evs[j].tls !in evs[i].Writes()
  {
    forall j | 0 <= j < |evs| && j != i
      ensures evs[j] !in evs[i].Writes()
        && (!evs[j].dead ==> evs[j].buf !in evs[i].Writes())
        && (evs[j].scratch != null ==> evs[j].tls !in evs[i].Writes())
    {
      Foreign(evs, i, j);
    }
  }

  /** One call on one event leaves every other where it was. */
  method PutOne(evs: seq<Ev>, i: nat, f: Field)
    requires Fleet(evs) && i < |evs| && Admissible(f.value)
    modifies evs[i].Writes()
    ensures Fleet(evs) && evs[i].Stays()
    ensures evs[i].dead == old(evs[i].dead)
    ensures !evs[i].dead ==> evs[i].Model() == Put(old(evs[i].Model()), f)
    ensures forall j :: 0 <= j < |evs| && j != i ==> View(evs[j]) == old(View(evs[j]))
    ensures forall j :: 0 <= j < |evs| ==> evs[j].heap == old(evs[j].heap) || fresh(evs[j].heap)
  {
    AllForeign(evs, i);
    evs[i].Put(f);
    assert forall j :: 0 <= j < |evs| && j != i ==> Kept(evs[j]);
    OthersKept(evs, i);
  }

  method EmitOne(evs: seq<Ev>, i: nat)
    requires Fleet(evs) && i < |evs|
    modifies evs[i].Writes(), if evs[i].dead then {} else {evs[i].sink}
    ensures Fleet(evs) && evs[i].Grows() && evs[i].dead
    ensures old(evs[i].dead) ==> evs[i].sink.lines == old(evs[i].sink.lines)
    ensures !old(evs[i].dead) ==>
      evs[i].sink.lines == old(evs[i].sink.lines) + if evs[i].sink.enabled then [Close(old(evs[i].Model()))] else []
    ensures evs[i].sink.enabled == old(evs[i].sink.enabled)
    ensures forall j :: 0 <= j < |evs| && j != i ==> View(evs[j]) == old(View(evs[j]))
    ensures forall j :: 0 <= j < |evs| ==> evs[j].heap == old(evs[j].heap) || fresh(evs[j].heap)
  {
    AllForeign(evs, i);
    evs[i].Emit();
    assert forall j :: 0 <= j < |evs| && j != i ==> Kept(evs[j]);
    OthersKept(evs, i);
  }

  /** One more event on the same thread and sink. */
  method OpenOne(evs: seq<Ev>, sink: EventSink, tls: Scratch, name: string) returns (all: seq<Ev>)
    requires Fleet(evs) && tls.buf.Length <= MAX_LINE && (evs != [] ==> evs[0].sink == sink && evs[0].tls == tls)
    modifies if tls.busy then {} else {tls, tls.buf}
    ensures |all| == |evs| + 1 && all[..|evs|] == evs && Fleet(all)
    ensures var e := all[|evs|]; fresh(e) && fresh(e.sbuf) && fresh(e.heap) && e.sink == sink && e.tls == tls
    ensures tls.buf == old(tls.buf) || fresh(tls.buf)
    ensures View(all[|evs|]) == if sink.enabled then Some(Start(name)) else None
    ensures forall j :: 0 <= j < |evs| ==> View(all[j]) == old(View(evs[j]))
  {
    var e := new Ev(sink, tls, name);
    all := evs + [e];
    assert forall j :: 0 <= j < |evs| ==> Kept(evs[j]);
    Joined(evs, e);
  }

  twostate lemma Joined(evs: seq<Ev>, new e: Ev)
    requires old(Fleet(evs)) && e.Valid() && fresh(e) && fresh(e.sbuf) && fresh(e.heap)
    requires forall j :: 0 <= j < |evs| ==> Kept(evs[j])
    requires forall j :: 0 <= j < |evs| ==> evs[j].sink == e.sink && evs[j].tls == e.tls
    requires evs != [] ==> e.tls.buf == old(evs[0].tls.buf) || fresh(e.tls.buf)
    ensures Fleet(evs + [e])
    ensures forall j :: 0 <= j < |evs| ==> evs[j].Valid() && View(evs[j]) == old(View(evs[j]))
  {
    forall j | 0 <= j < |evs|
      ensures evs[j].Valid() && View(evs[j]) == old(View(evs[j])) && Apart(evs[j], e)
    {
      StillValid(evs[j]);
    }
    assert forall j, k :: 0 <= j < k < |evs| ==> old(Apart(evs[j], evs[k]));
  }

  ghost predicate Shows(evs: seq<Ev>, open: seq<Option<Line>>)
    requires Fleet(evs)
    reads evs, set e | e in evs :: e.tls, set e | e in evs :: e.buf
  {
    |evs| == |open| && forall i :: 0 <= i < |evs| ==> View(evs[i]) == open[i]
  }

  /** Storage the run itself made. */
  ghost predicate Own(evs: seq<Ev>, sink: EventSink, tls: Scratch)
    reads evs
  {
    forall i :: 0 <= i < |evs| ==> evs[i].sink == sink && evs[i].tls == tls
  }

  twostate predicate New(new evs: seq<Ev>)
    reads evs
  {
    forall i :: 0 <= i < |evs| ==> fresh(evs[i]) && fresh(evs[i].sbuf) && fresh(evs[i].heap)
  }

  /** What the events may write besides what belongs to their thread. */
  ghost function Buffers(evs: seq<Ev>): set<array<char>>
    reads evs
  {
    set e | e in evs && !e.dead :: e.buf
  }

  method StepPut(evs: seq<Ev>, i: nat, f: Field, sink: EventSink, tls: Scratch, ghost s: Lines)
    requires Fleet(evs) && Own(evs, sink, tls) && Shows(evs, s.open) && Admissible(f.value)
    requires tls.buf.Length <= MAX_LINE
    modifies tls, tls.buf, evs, Buffers(evs)
    ensures Fleet(evs) && Shows(evs, Next(s, PutOn(i, f), sink.enabled).open)
    ensures Next(s, PutOn(i, f), sink.enabled).out == s.out
    ensures (tls.buf == old(tls.buf) || fresh(tls.buf)) && tls.buf.Length <= MAX_LINE
    ensures forall j :: 0 <= j < |evs| ==> evs[j].heap == old(evs[j].heap) || fresh(evs[j].heap)
  {
    hide Apart, Put;
    if i < |evs| {
      assert evs[i] in evs;
      PutOne(evs, i, f);
    }
  }

  method StepEmit(evs: seq<Ev>, i: nat, sink: EventSink, tls: Scratch, ghost s: Lines)
    requires Fleet(evs) && Own(evs, sink, tls) && Shows(evs, s.open) && sink.lines == s.out
    requires tls.buf.Length <= MAX_LINE
    modifies sink, tls, tls.buf, evs, Buffers(evs)
    ensures sink.enabled == old(sink.enabled)
    ensures Fleet(evs) && Shows(evs, Next(s, EmitOn(i), sink.enabled).open)
    ensures Next(s, EmitOn(i), sink.enabled).out == sink.lines
    ensures (tls.buf == old(tls.buf) || fresh(tls.buf)) && tls.buf.Length <= MAX_LINE
    ensures forall j :: 0 <= j < |evs| ==> evs[j].heap == old(evs[j].heap) || fresh(evs[j].heap)
  {
    hide Apart, Close;
    if i < |evs| {
      assert evs[i] in evs;
      EmitOne(evs, i);
    }
  }

  method StepOpen(evs: seq<Ev>, name: string, sink: EventSink, tls: Scratch, ghost s: Lines) returns (all: seq<Ev>)
    requires Fleet(evs) && Own(evs, sink, tls) && Shows(evs, s.open) && tls.buf.Length <= MAX_LINE
    modifies tls, tls.buf
    ensures Fleet(all) && Own(all, sink, tls) && Shows(all, Next(s, Open(name), sink.enabled).open)
    ensures Next(s, Open(name), sink.enabled).out == s.out
    ensures (tls.buf == old(tls.buf) || fresh(tls.buf)) && tls.buf.Length <= MAX_LINE
    ensures |all| == |evs| + 1 && all[..|evs|] == evs
    ensures fresh(all[|evs|]) && fresh(all[|evs|].sbuf) && fresh(all[|evs|].heap)
    ensures forall i :: 0 <= i < |evs| ==> evs[i].heap == old(evs[i].heap)
  {
    hide Apart, Start;
    all := OpenOne(evs, sink, tls, name);
  }

  method DoStep(evs: seq<Ev>, sink: EventSink, tls: Scratch, st: Step, ghost s: Lines) returns (all: seq<Ev>)
    requires Fleet(evs) && Own(evs, sink, tls) && tls.buf.Length <= MAX_LINE
    requires Shows(evs, s.open) && sink.lines == s.out
    requires st.PutOn? ==> Admissible(st.f.value)
    modifies sink, tls, tls.buf, evs, Buffers(evs)
    ensures Fleet(all) && Own(all, sink, tls) && tls.buf.Length <= MAX_LINE
    ensures Shows(all, Next(s, st, sink.enabled).open) && sink.lines == Next(s, st, sink.enabled).out
    ensures sink.enabled == old(sink.enabled)
    ensures tls.buf == old(tls.buf) || fresh(tls.buf)
    ensures |evs| <= |all| && all[..|evs|] == evs
    ensures forall i :: 0 <= i < |evs| ==> evs[i].heap == old(evs[i].heap) || fresh(evs[i].heap)
    ensures forall i :: |evs| <= i < |all| ==> fresh(all[i]) && fresh(all[i].sbuf) && fresh(all[i].heap)
  {
    hide Fleet, Next, Shows, Admissible;
    all := evs;
    match st
    case Open(name) => all := StepOpen(evs, name, sink, tls, s);
    case PutOn(i, f) => StepPut(evs, i, f, sink, tls, s);
    case EmitOn(i) => StepEmit(evs, i, sink, tls, s);
  }

  /** Every run of every number of events refines the run on strings, line by line and in order. */
  method Run(sink: EventSink, tls: Scratch, script: seq<Step>) returns (evs: seq<Ev>)
    requires tls.buf.Length <= MAX_LINE
    requires forall s :: s in script && s.PutOn? ==> Admissible(s.f.value)
    modifies sink, tls, tls.buf
    ensures Fleet(evs) && sink.enabled == old(sink.enabled)
    ensures var end := RunOn(Lines([], old(sink.lines)), script, sink.enabled);
      Shows(evs, end.open) && sink.lines == end.out
    ensures sink.lines == old(sink.lines) + if sink.enabled then Emitted(script) else []
  {
    hide Fleet, Shows, Next, Admissible;
    evs := [];
    ghost var s := Lines([], sink.lines);
    NoEvents();
    for n := 0 to |script|
      invariant Fleet(evs) && Own(evs, sink, tls) && New(evs) && tls.buf.Length <= MAX_LINE
      invariant tls.buf == old(tls.buf) || fresh(tls.buf)
      invariant sink.enabled == old(sink.enabled) && sink.lines == s.out && Shows(evs, s.open)
      invariant RunOn(s, script[n..], sink.enabled) == RunOn(Lines([], old(sink.lines)), script, sink.enabled)
    {
      assert script[n..][0] == script[n] && script[n..][1..] == script[n + 1..];
      Where(evs, tls);
      ghost var before := evs;
      evs := DoStep(evs, sink, tls, script[n], s);
      s := Next(s, script[n], sink.enabled);
      assert forall i :: 0 <= i < |before| ==> evs[i] == before[i];
    }
    assert script[|script|..] == [];
    LinesAreOwn(script, old(sink.lines));
    SilentRun(Lines([], old(sink.lines)), script);
  }

  lemma NoEvents()
    ensures Fleet([]) && Shows([], [])
  {
  }

  /** A live event writes into storage of its own or into its thread's. */
  lemma Where(evs: seq<Ev>, tls: Scratch)
    requires Fleet(evs) && forall i :: 0 <= i < |evs| ==> evs[i].tls == tls
    ensures forall i :: 0 <= i < |evs| && !evs[i].dead ==>
      evs[i].buf == evs[i].sbuf || evs[i].buf == evs[i].heap || evs[i].buf == tls.buf
  {
  }

  // ----- what comes out of a run -----

  /** One event on its own: not opened yet, open with the fields put on it so far, or emitted. */
  datatype Life = Unborn | Alive(name: string, fs: seq<Field>) | Gone

  function Opens(script: seq<Step>): nat
    decreases |script|
  {
    if script == [] then 0 else Opens(script[..|script| - 1]) + if script[|script| - 1].Open? then 1 else 0
  }

  /** The life of event i: of all the script, only its own opening and the steps on i matter. */
  function LifeOf(script: seq<Step>, i: nat): Life
    decreases |script|
  {
    if script == [] then Unborn
    else
      var front, last := script[..|script| - 1], script[|script| - 1];
      var life := LifeOf(front, i);
      match last
      case Open(name) => if Opens(front) == i then Alive(name, []) else life
      case PutOn(j, f) => if j == i && life.Alive? then Alive(life.name, life.fs + [f]) else life
      case EmitOn(j) => if j == i && life.Alive? then Gone else life
  }

  /** The lines the script emits, in order: each is the name and the fields of the event it belongs to. */
  function Emitted(script: seq<Step>): seq<string>
    decreases |script|
  {
    if script == [] then []
    else
      var front, last := script[..|script| - 1], script[|script| - 1];
      Emitted(front) +
        if last.EmitOn? && LifeOf(front, last.i).Alive? then
          [Close(EventLine.Event(LifeOf(front, last.i).name, LifeOf(front, last.i).fs))]
        else []
  }

  function ViewOf(life: Life): Option<Line> {
    if life.Alive? then Some(EventLine.Event(life.name, life.fs)) else None
  }

  lemma {:induction false} RunSnoc(s: Lines, script: seq<Step>, st: Step, enabled: bool)
    ensures RunOn(s, script + [st], enabled) == Next(RunOn(s, script, enabled), st, enabled)
    decreases |script|
  {
    hide Next;
    if script == [] {
      assert script + [st] == [st] && [st][1..] == [];
    } else {
      RunSnoc(Next(s, script[0], enabled), script[1..], st, enabled);
      assert (script + [st])[1..] == script[1..] + [st];
    }
  }

  lemma {:induction false} PutAllSnoc(l: Line, fs: seq<Field>, f: Field)
    ensures PutAll(l, fs + [f]) == Put(PutAll(l, fs), f)
    decreases |fs|
  {
    hide Put;
    if fs == [] {
      assert fs + [f] == [f] && [f][1..] == [];
    } else {
      PutAllSnoc(Put(l, fs[0]), fs[1..], f);
      assert (fs + [f])[1..] == fs[1..] + [f];
    }
  }

  /** Behind the last event opened there is none. */
  lemma {:induction false} LateUnborn(script: seq<Step>, i: nat)
    requires i >= Opens(script)
    ensures LifeOf(script, i) == Unborn
    decreases |script|
  {
    if script != [] {
      LateUnborn(script[..|script| - 1], i);
    }
  }

  /** Whatever was interleaved, every open line is its own event's name and fields, and the lines that came out
      are those of the events emitted, in the order they were. */
  lemma {:induction false} LinesAreOwn(script: seq<Step>, out: seq<string>)
    ensures var s := RunOn(Lines([], out), script, true);
      && |s.open| == Opens(script) && (forall i :: 0 <= i < |s.open| ==> s.open[i] == ViewOf(LifeOf(script, i)))
      && s.out == out + Emitted(script)
    decreases |script|
  {
    hide Put, PutAll, Start, Close;
    if script == [] {
      assert out + [] == out;
    } else {
      var front, last := script[..|script| - 1], script[|script| - 1];
      var before := RunOn(Lines([], out), front, true);
      assert script == front + [last];
      LinesAreOwn(front, out);
      RunSnoc(Lines([], out), front, last, true);
      if last.Open? {
        assert EventLine.Event(last.name, []) == Start(last.name) by { EmptyEvent(last.name); }
      } else {
        var i := last.i;
        if i >= |before.open| {
          LateUnborn(front, i);
        } else if last.PutOn? && LifeOf(front, i).Alive? {
          PutAllSnoc(Start(LifeOf(front, i).name), LifeOf(front, i).fs, last.f);
        }
      }
    }
  }

  lemma EmptyEvent(name: string)
    ensures EventLine.Event(name, []) == Start(name)
  {
  }

  /** A sink that is switched off gets nothing. */
  lemma {:induction false} SilentRun(s: Lines, script: seq<Step>)
    requires forall i :: 0 <= i < |s.open| ==> s.open[i].None?
    ensures var t := RunOn(s, script, false); t.out == s.out && forall i :: 0 <= i < |t.open| ==> t.open[i].None?
    decreases |script|
  {
    hide Put, Start, Close;
    if script != [] {
      SilentRun(Next(s, script[0], false), script[1..]);
    }
  }

  ghost predicate PlainStep(st: Step) {
    match st
    case Open(name) => Plain(name)
    case PutOn(_, f) => Plain(f.key)
    case EmitOn(_) => true
  }

  /** One line, whole: within the cap, a newline at its end and none before. */
  ghost predicate WholeLine(s: string) {
    0 < |s| <= MAX_LINE && s[|s| - 1] == '\n' && OneLine(s[..|s| - 1])
  }

  ghost predicate PlainScript(script: seq<Step>) { forall k :: 0 <= k < |script| ==> PlainStep(script[k]) }

  lemma {:induction false} LifeIsPlain(script: seq<Step>, i: nat)
    requires PlainScript(script)
    ensures var life := LifeOf(script, i); life.Alive? ==> Plain(life.name) && PlainKeys(life.fs)
    decreases |script|
  {
    hide Plain;
    if script != [] {
      LifeIsPlain(script[..|script| - 1], i);
    }
  }

  /** However events are interleaved, the sink gets whole lines and nothing else. */
  lemma {:induction false} RunGivesLines(script: seq<Step>)
    requires PlainScript(script)
    ensures forall k :: 0 <= k < |Emitted(script)| ==> WholeLine(Emitted(script)[k])
    decreases |script|
  {
    hide Plain, Close, EventLine.Event, OneLine, LifeOf, PlainStep;
    if script != [] {
      var front, last := script[..|script| - 1], script[|script| - 1];
      RunGivesLines(front);
      if last.EmitOn? && LifeOf(front, last.i).Alive? {
        LifeIsPlain(front, last.i);
        OneEventOneLine(LifeOf(front, last.i).name, LifeOf(front, last.i).fs);
      }
    }
  }
}
