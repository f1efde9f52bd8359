/**
 * The GUI log panel (utils/gui_logger.py): messages are sent to the backend
 * logger at once and shown in a text widget, held back in a pending list
 * until a widget is attached.
 *
 * The widget is modelled by the lines inserted into it, each with its tag;
 * `None` stands for no widget. The backend logger is modelled by the record
 * of the (message, level) pairs handed to it.
 */
module GuiLogger {
  import opened Text

  const Debug: string := "debug"

  /** A pending message as `log` or `buffer` stores it; `None` is a missing tag. */
  datatype Entry = Entry(msg: string, level: string, tag: Option<string>)

  /** A line inserted into the widget with its tag. */
  datatype Line = Line(text: string, tag: string)

  /** `tag or level`: an empty or missing tag falls back to the level. */
  function TagFor(tag: Option<string>, level: string): (r: string)
    ensures tag.Some? && tag.value != "" ==> r == tag.value
    ensures tag.None? || tag.value == "" ==> r == level
  {
    if tag.Some? && tag.value != "" then tag.value else level
  }

  /** The line a message is shown as: the message plus a newline, under its tag. */
  function Shown(e: Entry): Line
  {
    Line(e.msg + "\n", TagFor(e.tag, e.level))
  }

  /** The lines a pending list shows when flushed: its non-debug entries, in order. */
  function Rendered(p: seq<Entry>): seq<Line>
  {
    if |p| == 0 then []
    else Rendered(p[..|p| - 1]) + (if p[|p| - 1].level == Debug then [] else [Shown(p[|p| - 1])])
  }

  /** No debug message is pending. */
  predicate NoDebug(p: seq<Entry>)
  {
    forall i :: 0 <= i < |p| ==> p[i].level != Debug
  }

  /** Flushing two lists one after the other shows what flushing them together does. */
  lemma {:induction false} RenderedAppend(a: seq<Entry>, b: seq<Entry>)
    ensures Rendered(a + b) == Rendered(a) + Rendered(b)
    decreases |b|
  {
    if |b| == 0 {
      assert a + b == a;
    } else {
      var b' := b[..|b| - 1];
      assert (a + b)[..|a + b| - 1] == a + b';
      assert (a + b)[|a + b| - 1] == b[|b| - 1];
      RenderedAppend(a, b');
    }
  }

  /** A list without debug messages shows one line per entry, in the same order. */
  lemma {:induction false} RenderedNoDebug(p: seq<Entry>)
    requires NoDebug(p)
    ensures |Rendered(p)| == |p|
    ensures forall i :: 0 <= i < |p| ==> Rendered(p)[i] == Shown(p[i])
  {
    if |p| > 0 {
      RenderedNoDebug(p[..|p| - 1]);
    }
  }

  /** Debug messages are never shown. */
  lemma {:induction false} RenderedNoDebugLines(p: seq<Entry>)
    ensures forall l :: l in Rendered(p) ==> exists i :: 0 <= i < |p| && p[i].level != Debug && l == Shown(p[i])
  {
    if |p| > 0 {
      var q := p[..|p| - 1];
      RenderedNoDebugLines(q);
      forall l | l in Rendered(p)
        ensures exists i :: 0 <= i < |p| && p[i].level != Debug && l == Shown(p[i])
      {
        if l in Rendered(q) {
          var i :| 0 <= i < |q| && q[i].level != Debug && l == Shown(q[i]);
          assert p[i] == q[i];
        } else {
          assert p[|p| - 1].level != Debug && l == Shown(p[|p| - 1]);
        }
      }
    }
  }

  class GuiLogger {
    /** The lines in the attached widget; `None` while no widget is attached. */
    var widget: Option<seq<Line>>
    /** `_pending_logs`. */
    var pending: seq<Entry>
    /** Every (message, level) handed to the backend logger, in order. */
    var sent: seq<(string, string)>

    /** Debug messages are never held back. */
    predicate Valid()
      reads this
    {
      NoDebug(pending)
    }

    constructor()
      ensures Valid() && widget == None && pending == [] && sent == []
    {
      widget := None;
      pending := [];
      sent := [];
    }

    /** `attach`: the widget is set and what is pending is written into it. */
    method Attach(w: Option<seq<Line>>)
      requires Valid()
      modifies this
      ensures Valid()
      ensures widget == (if w.Some? then Some(w.value + Rendered(old(pending))) else None)
      ensures pending == (if w.Some? then [] else old(pending))
      ensures sent == old(sent)
    {
      widget := w;
      FlushPending();
    }

    /**
     * `log`: always to the backend; a debug message goes no further; with a
     * widget the message is written at once, without one it is held back.
     */
    method Log(msg: string, level: string, tag: Option<string>)
      requires Valid()
      modifies this
      ensures Valid()
      ensures sent == old(sent) + [(msg, level)]
      ensures level == Debug ==> widget == old(widget) && pending == old(pending)
      ensures level != Debug && old(widget).Some? ==>
                widget == Some(old(widget).value + [Line(msg + "\n", TagFor(tag, level))]) && pending == old(pending)
      ensures level != Debug && old(widget).None? ==>
                widget == None && pending == old(pending) + [Entry(msg, level, tag)]
    {
      sent := sent + [(msg, level)];
      if level == Debug {
        return;
      }
      if widget.Some? {
        widget := Some(widget.value + [Line(msg + "\n", TagFor(tag, level))]);
      } else {
        pending := pending + [Entry(msg, level, tag)];
      }
    }

    /** `_flush_pending`: with a widget, the pending non-debug messages are written in order and the list is cleared. */
    method FlushPending()
      modifies this
      ensures widget == (if old(widget).Some? then Some(old(widget).value + Rendered(old(pending))) else None)
      ensures pending == (if old(widget).Some? then [] else old(pending))
      ensures sent == old(sent)
    {
      if widget.None? {
        return;
      }
      var lines := widget.value;
      for i := 0 to |pending|
        invariant lines == old(widget).value + Rendered(pending[..i])
      {
        var e := pending[i];
        assert pending[..i + 1][..i] == pending[..i];
        if e.level != Debug {
          lines := lines + [Line(e.msg + "\n", TagFor(e.tag, e.level))];
        }
      }
      assert pending[..|pending|] == pending;
      widget := Some(lines);
      pending := [];
    }

    /** `buffer`: a non-debug message is held back, even when a widget is attached. */
    method Buffer(msg: string, level: string, tag: Option<string>)
      requires Valid()
      modifies this
      ensures Valid()
      ensures pending == (if level == Debug then old(pending) else old(pending) + [Entry(msg, level, tag)])
      ensures widget == old(widget) && sent == old(sent)
    {
      if level != Debug {
        pending := pending + [Entry(msg, level, tag)];
      }
    }

    /** `flush`. */
    method Flush()
      requires Valid()
      modifies this
      ensures Valid()
      ensures widget == (if old(widget).Some? then Some(old(widget).value + Rendered(old(pending))) else None)
      ensures pending == (if old(widget).Some? then [] else old(pending))
      ensures sent == old(sent)
    {
      FlushPending();
    }
  }

  /**
   * Messages logged before the widget exists end up in it exactly as if
   * they had been logged after: a fresh logger fed `entries` and then
   * attached shows the non-debug ones in order.
   */
  method LogThenAttach(entries: seq<Entry>, content: seq<Line>) returns (shown: seq<Line>, sent: seq<(string, string)>)
    ensures shown == content + Rendered(entries)
    ensures |sent| == |entries| && forall i :: 0 <= i < |entries| ==> sent[i] == (entries[i].msg, entries[i].level)
  {
    var g := new GuiLogger();
    for i := 0 to |entries|
      invariant g.Valid() && g.widget == None
      invariant Rendered(g.pending) == Rendered(entries[..i])
      invariant |g.sent| == i && forall j :: 0 <= j < i ==> g.sent[j] == (entries[j].msg, entries[j].level)
    {
      var e := entries[i];
      assert entries[..i + 1] == entries[..i] + [e];
      RenderedAppend(entries[..i], [e]);
      RenderedAppend(g.pending, [Entry(e.msg, e.level, e.tag)]);
      g.Log(e.msg, e.level, e.tag);
    }
    assert entries[..|entries|] == entries;
    g.Attach(Some(content));
    shown := g.widget.value;
    sent := g.sent;
  }

  /** The same messages logged after attaching land in the widget directly, with the same result. */
  method AttachThenLog(entries: seq<Entry>, content: seq<Line>) returns (shown: seq<Line>, sent: seq<(string, string)>)
    ensures shown == content + Rendered(entries)
    ensures |sent| == |entries| && forall i :: 0 <= i < |entries| ==> sent[i] == (entries[i].msg, entries[i].level)
  {
    var g := new GuiLogger();
    g.Attach(Some(content));
    assert Rendered([]) == [];
    for i := 0 to |entries|
      invariant g.Valid()
      invariant g.widget == Some(content + Rendered(entries[..i]))
      invariant |g.sent| == i && forall j :: 0 <= j < i ==> g.sent[j] == (entries[j].msg, entries[j].level)
    {
      var e := entries[i];
      assert entries[..i + 1] == entries[..i] + [e];
      RenderedAppend(entries[..i], [e]);
      assert [e][..0] == [];
      assert Rendered([e]) == (if e.level == Debug then [] else [Shown(e)]);
      ghost var before := g.widget.value;
      g.Log(e.msg, e.level, e.tag);
      assert g.widget.value == before + Rendered([e]);
      assert content + Rendered(entries[..i + 1]) == content + Rendered(entries[..i]) + Rendered([e]);
    }
    assert entries[..|entries|] == entries;
    shown := g.widget.value;
    sent := g.sent;
  }
}
