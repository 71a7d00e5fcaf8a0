/** The `SesMail` event listener: its constructor, and `runforever` run over a
    finite stream of events. What the listener does to the outside world is
    recorded, in order, in its `trace`: each mail handed to the mail
    transport and each `childutils.listener.ok` acknowledgement. */
module Listener {
  import opened Builtins
  import opened Decision

  datatype Output = SendMail(subject: string, msg: string) | ListenerOk

  /** The recipient value: one address from the command line, or the list
      of addresses split from the configuration file. */
  datatype EmailTo = Address(addr: string) | AddressList(addrs: seq<string>)

  /** The keyword arguments the entry points pass to `SesMail(**dakwargs)`.
      `None` stands for a key that is absent. `region` is not a parameter of
      the constructor. */
  datatype Kwargs = Kwargs(
    programs: seq<string>,
    excluded: seq<string>,
    any: bool,
    emailto: Option<EmailTo>,
    emailfrom: Option<string>,
    awsId: Option<string>,
    awsSecret: Option<string>,
    optionalheader: Option<string>,
    region: Option<string>)

  /** The constructor's `if not xs: xs = []`: a missing or empty list becomes
      the empty list, any other list is kept. */
  function OrEmpty(xs: Option<seq<string>>): (r: seq<string>)
    ensures r == [] <==> xs.None? || xs.value == []
    ensures xs.Some? && xs.value != [] ==> r == xs.value
  {
    if xs.None? || xs.value == [] then [] else xs.value
  }

  /** The decision-relevant fields of the listener that `SesMail(**kw)`
      builds. */
  function KwargsConfig(kw: Kwargs): ListenerConfig {
    ListenerConfig(OrEmpty(Some(kw.programs)), OrEmpty(Some(kw.excluded)), kw.any, kw.optionalheader)
  }

  /** The decision for each event of a stream, in order. */
  function Decisions(c: ListenerConfig, frames: seq<Frame>): (ds: seq<Decision>)
    ensures |ds| == |frames|
  {
    seq(|frames|, i requires 0 <= i < |frames| => Decide(c, frames[i]))
  }

  /** What one event that does not raise writes: an acknowledgement, preceded
      by a mail when the decision is to notify. */
  function Emits(d: Decision): seq<Output> {
    match d
    case Suppress => [ListenerOk]
    case Notify(subject, msg) => [SendMail(subject, msg), ListenerOk]
    case KeyError(_) => []
  }

  /** The number of events handled before the first one that raises
      `KeyError` (all of them when none does). */
  function Served(ds: seq<Decision>): (n: nat)
    ensures n <= |ds|
    ensures forall j :: 0 <= j < n ==> !ds[j].KeyError?
    ensures n < |ds| ==> ds[n].KeyError?
    decreases |ds|
  {
    if ds == [] || ds[0].KeyError? then 0 else 1 + Served(ds[1..])
  }

  /** Everything `runforever` writes for a stream of decisions: the outputs of
      each event in turn, up to the first `KeyError`, which ends the loop. */
  function Transcript(ds: seq<Decision>): seq<Output>
    decreases |ds|
  {
    if ds == [] || ds[0].KeyError? then []
    else Emits(ds[0]) + Transcript(ds[1..])
  }

  lemma {:induction false} TranscriptSnoc(ds: seq<Decision>, i: nat)
    requires i < Served(ds)
    ensures Transcript(ds[..i + 1]) == Transcript(ds[..i]) + Emits(ds[i])
    decreases i
  {
    var rest := ds[1..];
    if i == 0 {
      assert ds[..1][1..] == [];
      assert ds[..0] == [];
    } else {
      TranscriptSnoc(rest, i - 1);
      assert ds[..i + 1][1..] == rest[..i];
      assert ds[..i][1..] == rest[..i - 1];
      assert rest[i - 1] == ds[i];
    }
  }

  lemma {:induction false} TranscriptUpToServed(ds: seq<Decision>)
    ensures Transcript(ds) == Transcript(ds[..Served(ds)])
    decreases |ds|
  {
    if ds != [] && !ds[0].KeyError? {
      var n := Served(ds);
      TranscriptUpToServed(ds[1..]);
      assert ds[..n][1..] == ds[1..][..n - 1];
    }
  }

  /** The mails in a trace, in order. */
  function Mails(t: seq<Output>): seq<Output>
    decreases |t|
  {
    if t == [] then [] else (if t[0].SendMail? then [t[0]] else []) + Mails(t[1..])
  }

  lemma {:induction false} MailsConcat(a: seq<Output>, b: seq<Output>)
    ensures Mails(a + b) == Mails(a) + Mails(b)
    decreases |a|
  {
    if a == [] {
      assert a + b == b;
    } else {
      assert (a + b)[0] == a[0];
      assert (a + b)[1..] == a[1..] + b;
      MailsConcat(a[1..], b);
    }
  }

  /** The mail each notifying decision calls for, in order. */
  function Notices(ds: seq<Decision>): seq<Output>
    decreases |ds|
  {
    if ds == [] then []
    else
      (match ds[0]
       case Notify(subject, msg) => [SendMail(subject, msg)]
       case _ => [])
      + Notices(ds[1..])
  }

  lemma AckPerDecision(d: Decision)
    ensures Count(Emits(d), ListenerOk) == if d.KeyError? then 0 else 1
  {
    var e := Emits(d);
    if d.Notify? {
      var m := [SendMail(d.subject, d.msg)];
      assert m[..0] == [];
      assert Count(m, ListenerOk) == 0;
      assert e[..1] == m;
    } else if d.Suppress? {
      assert e[..0] == [];
    }
  }

  /** Exactly one acknowledgement per event handled. */
  lemma {:induction false} OneAckPerEvent(ds: seq<Decision>)
    ensures Count(Transcript(ds), ListenerOk) == Served(ds)
    decreases |ds|
  {
    if ds != [] && !ds[0].KeyError? {
      OneAckPerEvent(ds[1..]);
      CountConcat(Emits(ds[0]), Transcript(ds[1..]), ListenerOk);
      AckPerDecision(ds[0]);
    }
  }

  /** A mail goes out exactly for the events handled whose decision is to
      notify, with that decision's subject and message, in event order. */
  lemma {:induction false} MailsAreNotices(ds: seq<Decision>)
    ensures Mails(Transcript(ds)) == Notices(ds[..Served(ds)])
    decreases |ds|
  {
    var n := Served(ds);
    if ds == [] || ds[0].KeyError? {
      assert ds[..n] == [];
    } else {
      MailsAreNotices(ds[1..]);
      var e := Emits(ds[0]);
      MailsConcat(e, Transcript(ds[1..]));
      assert ds[..n][0] == ds[0];
      assert ds[..n][1..] == ds[1..][..n - 1];
      if ds[0].Notify? {
        assert e[1..][1..] == [];
      } else {
        assert e[1..] == [];
      }
    }
  }

  /** The acknowledgement discipline of a trace: every mail is immediately
      followed by an acknowledgement, and the trace ends with one. */
  predicate Disciplined(t: seq<Output>) {
    && (forall j :: 0 <= j < |t| && t[j].SendMail? ==> j + 1 < |t| && t[j + 1] == ListenerOk)
    && (t != [] ==> t[|t| - 1] == ListenerOk)
  }

  lemma DisciplinedConcat(a: seq<Output>, b: seq<Output>)
    requires Disciplined(a) && Disciplined(b)
    ensures Disciplined(a + b)
  {
    var t := a + b;
    forall j | 0 <= j < |t| && t[j].SendMail?
      ensures j + 1 < |t| && t[j + 1] == ListenerOk
    {
      if j < |a| {
        assert a[j].SendMail?;
      } else {
        assert b[j - |a|].SendMail?;
      }
    }
  }

  /** Each mail precedes the acknowledgement of its own event: the transcript
      of any stream keeps the acknowledgement discipline. */
  lemma {:induction false} MailBeforeAck(ds: seq<Decision>)
    ensures Disciplined(Transcript(ds))
    decreases |ds|
  {
    if ds != [] && !ds[0].KeyError? {
      MailBeforeAck(ds[1..]);
      DisciplinedConcat(Emits(ds[0]), Transcript(ds[1..]));
    }
  }

  /** A stream of well-formed events is handled to the end, so it is
      acknowledged once per event. */
  lemma WellFormedStreamsAreServed(c: ListenerConfig, frames: seq<Frame>)
    requires forall i :: 0 <= i < |frames| ==> WellFormed(frames[i])
    ensures Served(Decisions(c, frames)) == |frames|
    ensures Count(Transcript(Decisions(c, frames)), ListenerOk) == |frames|
  {
    var ds := Decisions(c, frames);
    var n := Served(ds);
    if n < |frames| {
      DecideErrors(c, frames[n]);
    }
    OneAckPerEvent(ds);
  }

  class SesMail {
    const programs: seq<string>
    const excluded: seq<string>
    const any: bool
    const emailto: Option<EmailTo>
    const emailfrom: Option<string>
    const awsId: Option<string>
    const awsSecret: Option<string>
    const optionalheader: Option<string>
    /** The mails sent and the acknowledgements written so far. */
    var trace: seq<Output>

    constructor (programs: Option<seq<string>>, excluded: Option<seq<string>>, any: bool,
                 emailto: Option<EmailTo>, emailfrom: Option<string>, awsId: Option<string>,
                 awsSecret: Option<string>, optionalheader: Option<string>)
      ensures this.programs == OrEmpty(programs) && this.excluded == OrEmpty(excluded)
      ensures this.any == any && this.emailto == emailto && this.emailfrom == emailfrom
      ensures this.awsId == awsId && this.awsSecret == awsSecret && this.optionalheader == optionalheader
      ensures trace == []
    {
      this.programs := OrEmpty(programs);
      this.excluded := OrEmpty(excluded);
      this.any := any;
      this.emailto := emailto;
      this.emailfrom := emailfrom;
      this.awsId := awsId;
      this.awsSecret := awsSecret;
      this.optionalheader := optionalheader;
      trace := [];
    }

    /** The settings the decision reads; `__init__` fixes them and nothing
        changes them afterwards. */
    function Config(): ListenerConfig {
      ListenerConfig(programs, excluded, any, optionalheader)
    }

    /** `self.mail(subject, msg)`: hands one mail to the transport. */
    method Mail(subject: string, msg: string)
      modifies this`trace
      ensures trace == old(trace) + [SendMail(subject, msg)]
    {
      trace := trace + [SendMail(subject, msg)];
    }

    /** `childutils.listener.ok(self.stdout)`: acknowledges the current event. */
    method Ack()
      modifies this`trace
      ensures trace == old(trace) + [ListenerOk]
    {
      trace := trace + [ListenerOk];
    }

    /** One pass of the `runforever` loop body for the event `f`: a
        `KeyError` escapes before anything is written; otherwise the event is
        acknowledged, after a mail when the decision is to notify. */
    method HandleEvent(f: Frame) returns (error: Option<string>)
      modifies this`trace
      ensures Decide(Config(), f).KeyError? ==> error == Some(Decide(Config(), f).key)
      ensures !Decide(Config(), f).KeyError? ==> error == None
      ensures trace == old(trace) + Emits(Decide(Config(), f))
    {
      var d := Decide(Config(), f);
      match d {
        case KeyError(key) =>
          return Some(key);
        case Suppress =>
          Ack();
        case Notify(subject, msg) =>
          Mail(subject, msg);
          Ack();
      }
      return None;
    }

    /** `runforever` over a finite stream of events. It handles them in order
        and stops at the first `KeyError`, which it returns, leaving that
        event unacknowledged; the listener's settings do not change. */
    method RunForever(frames: seq<Frame>) returns (error: Option<string>)
      modifies this`trace
      ensures trace == old(trace) + Transcript(Decisions(Config(), frames))
      ensures error.None? <==> Served(Decisions(Config(), frames)) == |frames|
      ensures error.Some? ==> Decisions(Config(), frames)[Served(Decisions(Config(), frames))] == KeyError(error.value)
    {
      var c := Config();
      ghost var ds := Decisions(c, frames);
      error := None;
      var i := 0;
      while i < |frames|
        invariant i <= Served(ds)
        invariant trace == old(trace) + Transcript(ds[..i])
        invariant error == None
        decreases |frames| - i
      {
        assert ds[i] == Decide(c, frames[i]);
        error := HandleEvent(frames[i]);
        if error.Some? {
          assert ds[i].KeyError?;
          TranscriptUpToServed(ds);
          return;
        }
        TranscriptSnoc(ds, i);
        i := i + 1;
      }
      assert ds[..i] == ds;
    }
  }

  /** `prog = SesMail(**dakwargs); prog.runforever()`: the listener built
      from the keyword arguments handles the stream under the settings the
      arguments select. The caller has excluded a `region` key, for which
      the constructor raises `TypeError`. */
  method Launch(kw: Kwargs, frames: seq<Frame>) returns (prog: SesMail, error: Option<string>)
    requires kw.region.None?
    ensures fresh(prog)
    ensures prog.Config() == KwargsConfig(kw)
    ensures prog.emailto == kw.emailto && prog.emailfrom == kw.emailfrom
    ensures prog.awsId == kw.awsId && prog.awsSecret == kw.awsSecret
    ensures prog.trace == Transcript(Decisions(KwargsConfig(kw), frames))
    ensures error.None? <==> Served(Decisions(KwargsConfig(kw), frames)) == |frames|
  {
    prog := new SesMail(Some(kw.programs), Some(kw.excluded), kw.any, kw.emailto, kw.emailfrom,
                        kw.awsId, kw.awsSecret, kw.optionalheader);
    error := prog.RunForever(frames);
  }
}
