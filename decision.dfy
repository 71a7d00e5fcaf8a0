/** The per-event decision of `SesMail.runforever`: normalise the event
    name, pass the event through the class gate, the exclusion list and the
    selection, and format the mail's subject and message. Every input the
    loop reads from the outside world for one event is a field of `Frame`. */
module Decision {
  import opened Builtins

  const PROCESS_STATE_EXITED := "PROCESS_STATE_EXITED"
  const PROCESS_STATE_FATAL := "PROCESS_STATE_FATAL"

  /** One event from the supervisor: the header map returned by
      `childutils.listener.wait`, the payload's header map as parsed by
      `childutils.eventdata`, and the value `childutils.get_asctime()` returns
      if the event gets as far as the subject line. */
  datatype Frame = Frame(headers: map<string, string>, payload: map<string, string>, asctime: string)

  /** The listener's fields that the decision reads. */
  datatype ListenerConfig = ListenerConfig(
    programs: seq<string>,
    excluded: seq<string>,
    any: bool,
    optionalheader: Option<string>)

  /** What one event leads to: nothing but an acknowledgement, a mail, or a
      `KeyError` on a missing header or payload field. */
  datatype Decision = Suppress | Notify(subject: string, msg: string) | KeyError(key: string)

  /** `eventname.split('_')[-1]`: the last `_`-separated segment. */
  function Normalize(eventname: string): string {
    var parts := Split(eventname, '_');
    parts[|parts| - 1]
  }

  /** The normalised name is the text after the last `_` (all of it when
      there is none): a suffix that holds no `_` and is preceded by `_` or by
      nothing. */
  lemma {:induction false} NormalizeIsLastSegment(eventname: string)
    ensures var n := Normalize(eventname);
            var k := |eventname| - |n|;
            && 0 <= k
            && '_' !in n
            && eventname == eventname[..k] + n
            && (k == 0 || eventname[k - 1] == '_')
    decreases |eventname|
  {
    var s := eventname;
    if s != [] {
      var s' := s[..|s| - 1];
      var x := s[|s| - 1];
      assert s == s' + [x];
      NormalizeIsLastSegment(s');
      if x != '_' {
        var n' := Normalize(s');
        var parts := Split(s', '_');
        assert Split(s, '_') == parts[..|parts| - 1] + [n' + [x]];
        assert Normalize(s) == n' + [x];
        var k := |s'| - |n'|;
        assert s[..k] == s'[..k];
      }
    }
  }

  /** The text after an underscore that is followed by none. */
  lemma NormalizeAfterUnderscore(prefix: string, name: string)
    requires '_' !in name
    ensures Normalize(prefix + "_" + name) == name
  {
    SplitAfterSeparator(prefix, '_');
    SplitAppendFree(prefix + "_", name, '_');
    assert "" + name == name;
  }

  lemma NormalizeWithoutUnderscore(eventname: string)
    requires '_' !in eventname
    ensures Normalize(eventname) == eventname
  {
    SplitAppendFree("", eventname, '_');
    assert "" + eventname == eventname;
    assert "" + "" + eventname == eventname;
  }

  lemma NormalizeProcessStates()
    ensures Normalize(PROCESS_STATE_EXITED) == "EXITED"
    ensures Normalize(PROCESS_STATE_FATAL) == "FATAL"
    ensures Normalize("PROCESS_STATE_STARTING") == "STARTING"
  {
    assert PROCESS_STATE_EXITED == "PROCESS_STATE" + "_" + "EXITED";
    NormalizeAfterUnderscore("PROCESS_STATE", "EXITED");
    assert PROCESS_STATE_FATAL == "PROCESS_STATE" + "_" + "FATAL";
    NormalizeAfterUnderscore("PROCESS_STATE", "FATAL");
    assert "PROCESS_STATE_STARTING" == "PROCESS_STATE" + "_" + "STARTING";
    NormalizeAfterUnderscore("PROCESS_STATE", "STARTING");
  }

  /** The payload map after the assignment to its `eventname` key: any
      `eventname` the payload carried is overwritten, every other key keeps
      its value. */
  function Enrich(payload: map<string, string>, eventname: string): (p: map<string, string>)
    ensures p.Keys == payload.Keys + {"eventname"}
    ensures p["eventname"] == Normalize(eventname)
    ensures forall k :: k in payload && k != "eventname" ==> p[k] == payload[k]
  {
    payload["eventname" := Normalize(eventname)]
  }

  /** A `%`-format template: literal text and `%(key)s` fields. */
  datatype Piece = Text(text: string) | Field(key: string)

  /** Python `template % mapping` for string-valued mappings: the fields are
      looked up from left to right and the first missing key raises
      `KeyError`. */
  function Interpolate(template: seq<Piece>, m: map<string, string>): Result<string, string>
    decreases |template|
  {
    if template == [] then Ok("")
    else
      var head :- match template[0]
        case Text(t) => Ok(t)
        case Field(k) => if k in m then Ok(m[k]) else Err(k);
      var rest :- Interpolate(template[1..], m);
      Ok(head + rest)
  }

  predicate FieldsPresent(template: seq<Piece>, m: map<string, string>) {
    forall i :: 0 <= i < |template| && template[i].Field? ==> template[i].key in m
  }

  /** Formatting succeeds exactly when every field is in the mapping, and it
      fails on the first field that is not. */
  lemma {:induction false} InterpolateOutcome(template: seq<Piece>, m: map<string, string>)
    ensures Interpolate(template, m).Ok? <==> FieldsPresent(template, m)
    ensures Interpolate(template, m).Err? ==>
              exists i :: 0 <= i < |template| && template[i] == Field(Interpolate(template, m).error)
                          && template[i].key !in m && FieldsPresent(template[..i], m)
    decreases |template|
  {
    if template != [] {
      var rest := template[1..];
      InterpolateOutcome(rest, m);
      assert forall i :: 0 < i < |template| ==> template[i] == rest[i - 1];
      if template[0].Field? && template[0].key !in m {
        assert FieldsPresent(template[..0], m);
      } else if Interpolate(template, m).Err? {
        var k := Interpolate(template, m).error;
        var j :| 0 <= j < |rest| && rest[j] == Field(k) && rest[j].key !in m && FieldsPresent(rest[..j], m);
        assert template[j + 1] == Field(k);
        var pre := template[..j + 1];
        forall i | 0 <= i < |pre| && pre[i].Field?
          ensures pre[i].key in m
        {
          if i > 0 {
            assert pre[i] == rest[..j][i - 1];
          }
        }
      }
    }
  }

  /** Formatting reads only the fields the template names. */
  lemma {:induction false} InterpolateReadsFields(template: seq<Piece>, m1: map<string, string>, m2: map<string, string>)
    requires forall i :: 0 <= i < |template| && template[i].Field? ==>
               (template[i].key in m1 <==> template[i].key in m2)
               && (template[i].key in m1 ==> m1[template[i].key] == m2[template[i].key])
    ensures Interpolate(template, m1) == Interpolate(template, m2)
    decreases |template|
  {
    if template != [] {
      var rest := template[1..];
      assert forall i :: 0 <= i < |rest| ==> rest[i] == template[i + 1];
      InterpolateReadsFields(rest, m1, m2);
    }
  }

  /** The message template of `runforever`. Its two adjacent Python literals
      end and begin with a space, so the text reads `,  moved to` with two
      spaces. */
  const MessageTemplate: seq<Piece> := [
    Text("Process "), Field("processname"),
    Text(", in group "), Field("groupname"),
    Text(",  moved to "), Field("eventname"),
    Text(" from state "), Field("from_state")]

  lemma InterpolateCons(head: Piece, rest: seq<Piece>, m: map<string, string>)
    requires head.Field? ==> head.key in m
    requires Interpolate(rest, m).Ok?
    ensures Interpolate([head] + rest, m)
            == Ok((if head.Text? then head.text else m[head.key]) + Interpolate(rest, m).value)
  {
    assert ([head] + rest)[1..] == rest;
  }

  lemma MessageText(m: map<string, string>)
    requires "processname" in m && "groupname" in m && "eventname" in m && "from_state" in m
    ensures Interpolate(MessageTemplate, m)
            == Ok("Process " + m["processname"] + ", in group " + m["groupname"]
                  + ",  moved to " + m["eventname"] + " from state " + m["from_state"])
  {
    var t7 := [Field("from_state")] + [];
    InterpolateCons(Field("from_state"), [], m);
    var t6 := [Text(" from state ")] + t7;
    InterpolateCons(Text(" from state "), t7, m);
    var t5 := [Field("eventname")] + t6;
    InterpolateCons(Field("eventname"), t6, m);
    var t4 := [Text(",  moved to ")] + t5;
    InterpolateCons(Text(",  moved to "), t5, m);
    var t3 := [Field("groupname")] + t4;
    InterpolateCons(Field("groupname"), t4, m);
    var t2 := [Text(", in group ")] + t3;
    InterpolateCons(Text(", in group "), t3, m);
    var t1 := [Field("processname")] + t2;
    InterpolateCons(Field("processname"), t2, m);
    var t0 := [Text("Process ")] + t1;
    InterpolateCons(Text("Process "), t1, m);
    assert t0 == MessageTemplate;
    var pn, gn, e, fs := m["processname"], m["groupname"], m["eventname"], m["from_state"];
    assert "Process " + (pn + (", in group " + (gn + (",  moved to " + (e + (" from state " + (fs + "")))))))
           == "Process " + pn + ", in group " + gn + ",  moved to " + e + " from state " + fs;
  }

  /** The subject line: a leading space, the process name, the normalised
      event name and the time, prefixed by `optionalheader:` when the header
      is truthy. */
  function Subject(optionalheader: Option<string>, processname: string, eventname: string, asctime: string): string {
    var subject := " " + processname + " " + eventname + " at " + asctime;
    if Truthy(optionalheader) then optionalheader.value + ":" + subject else subject
  }

  /** A truthy header prefixes the unprefixed subject with `header:`; the
      unprefixed subject is a space, the process name, a space, the event
      name, ` at ` and the time. */
  lemma SubjectLayout(optionalheader: Option<string>, processname: string, eventname: string, asctime: string)
    ensures var plain := Subject(None, processname, eventname, asctime);
            && Subject(optionalheader, processname, eventname, asctime)
               == (if Truthy(optionalheader) then optionalheader.value + ":" + plain else plain)
            && plain[0] == ' '
            && plain[1..|processname| + 2] == processname + " "
            && |plain| >= |asctime| + 4
            && plain[|plain| - |asctime| - 4..] == " at " + asctime
            && |plain| == |processname| + |eventname| + |asctime| + 6
            && plain[|processname| + 2..|plain| - |asctime| - 4] == eventname
  {
    var plain := Subject(None, processname, eventname, asctime);
    assert plain == (" " + processname + " ") + eventname + (" at " + asctime);
    assert plain == " " + (processname + " ") + (eventname + " at " + asctime);
    assert plain == (" " + processname + " " + eventname) + (" at " + asctime);
  }

  /** The event-class gate: `PROCESS_STATE_EXITED`, `PROCESS_STATE_FATAL`, or a
      transition out of `EXITED`. `from_state` is looked at only when the
      event is not `PROCESS_STATE_EXITED`. */
  predicate IsCandidate(eventname: string, payload: map<string, string>)
    requires eventname != PROCESS_STATE_EXITED ==> "from_state" in payload
  {
    eventname == PROCESS_STATE_EXITED || payload["from_state"] == "EXITED" || eventname == PROCESS_STATE_FATAL
  }

  /** The decision `runforever` takes for one event, with the lookups in the
      order the code makes them. */
  function Decide(c: ListenerConfig, f: Frame): Decision {
    if "eventname" !in f.headers then KeyError("eventname")
    else
      var eventname := f.headers["eventname"];
      var p := Enrich(f.payload, eventname);
      if eventname != PROCESS_STATE_EXITED && "from_state" !in p then KeyError("from_state")
      else if !IsCandidate(eventname, p) then Suppress
      else if "processname" !in p then KeyError("processname")
      else if p["processname"] in c.excluded then Suppress
      else if !c.any && p["processname"] !in c.programs then Suppress
      else match Interpolate(MessageTemplate, p)
        case Err(k) => KeyError(k)
        case Ok(msg) => Notify(Subject(c.optionalheader, p["processname"], p["eventname"], f.asctime), msg)
  }

  /** Every field the decision may look up is there. */
  predicate WellFormed(f: Frame) {
    && "eventname" in f.headers
    && "processname" in f.payload
    && "groupname" in f.payload
    && "from_state" in f.payload
  }

  /** The filter cascade on a well-formed event: it notifies exactly when the
      event class qualifies, the process is not excluded, and `any` is set or
      the bare process name is an element of `programs`; otherwise it is
      suppressed. */
  lemma FilterCascade(c: ListenerConfig, f: Frame)
    requires WellFormed(f)
    ensures var pn := f.payload["processname"];
            && (Decide(c, f).Notify? <==>
                  && IsCandidate(f.headers["eventname"], f.payload)
                  && pn !in c.excluded
                  && (c.any || pn in c.programs))
            && (!Decide(c, f).Notify? ==> Decide(c, f) == Suppress)
  {
    var p := Enrich(f.payload, f.headers["eventname"]);
    MessageText(p);
  }

  /** What a notification of a well-formed event says. The event name in both
      lines is the normalised header name, whatever the payload's own
      `eventname` was. */
  lemma NotifyContents(c: ListenerConfig, f: Frame)
    requires WellFormed(f) && Decide(c, f).Notify?
    ensures var e := Normalize(f.headers["eventname"]);
            var pn := f.payload["processname"];
            && Decide(c, f).subject == Subject(c.optionalheader, pn, e, f.asctime)
            && Decide(c, f).msg == "Process " + pn + ", in group " + f.payload["groupname"]
                                   + ",  moved to " + e + " from state " + f.payload["from_state"]
  {
    MessageText(Enrich(f.payload, f.headers["eventname"]));
  }

  /** Exclusion outranks everything: an excluded process never notifies,
      whether or not it is in `programs` and whatever `any` says. */
  lemma ExclusionWins(c: ListenerConfig, f: Frame)
    requires "processname" in f.payload && f.payload["processname"] in c.excluded
    ensures !Decide(c, f).Notify?
  {
  }

  /** With `any` set, every qualifying event of a process that is not excluded
      notifies, even when `programs` is empty. */
  lemma AnyNotifiesEveryCandidate(c: ListenerConfig, f: Frame)
    requires WellFormed(f) && c.any
    requires IsCandidate(f.headers["eventname"], f.payload) && f.payload["processname"] !in c.excluded
    ensures Decide(c, f).Notify?
  {
    FilterCascade(c, f);
  }

  /** With `any` off and no programs selected, nothing notifies. */
  lemma NothingSelected(c: ListenerConfig, f: Frame)
    requires !c.any && c.programs == []
    ensures !Decide(c, f).Notify?
  {
  }

  /** Matching is on the bare process name: programs given as `group:name`
      never match a process name without a colon. */
  lemma QualifiedNamesDoNotMatch(c: ListenerConfig, f: Frame)
    requires !c.any && forall i :: 0 <= i < |c.programs| ==> ':' in c.programs[i]
    requires "processname" in f.payload && ':' !in f.payload["processname"]
    ensures !Decide(c, f).Notify?
  {
  }

  /** A `KeyError` names a key that is missing: `eventname` in the headers, or
      `from_state`, `processname` or `groupname` in the payload; a
      well-formed event raises none. */
  lemma DecideErrors(c: ListenerConfig, f: Frame)
    ensures Decide(c, f).KeyError? ==>
              var k := Decide(c, f).key;
              || (k == "eventname" && k !in f.headers)
              || (k in ["from_state", "processname", "groupname"] && k !in f.payload)
    ensures WellFormed(f) ==> !Decide(c, f).KeyError?
  {
    if "eventname" in f.headers {
      var p := Enrich(f.payload, f.headers["eventname"]);
      InterpolateOutcome(MessageTemplate, p);
      if Decide(c, f).KeyError? && "processname" in p && Interpolate(MessageTemplate, p).Err? {
        var k := Decide(c, f).key;
        var i :| 0 <= i < |MessageTemplate| && MessageTemplate[i] == Field(k) && k !in p;
      }
    }
  }

  /** `from_state` is read by the class gate only for events other than
      `PROCESS_STATE_EXITED`: such an event without it raises `KeyError` at
      the gate. An EXITED event without it passes the gate: it is suppressed
      when the process is excluded or not selected, and otherwise the message
      formatting raises `KeyError('from_state')`, so it is never mailed. */
  lemma FromStateLookup(c: ListenerConfig, f: Frame)
    requires "eventname" in f.headers && "from_state" !in f.payload
    ensures f.headers["eventname"] != PROCESS_STATE_EXITED ==> Decide(c, f) == KeyError("from_state")
    ensures f.headers["eventname"] == PROCESS_STATE_EXITED && "processname" in f.payload
            && (f.payload["processname"] in c.excluded || (!c.any && f.payload["processname"] !in c.programs))
            ==> Decide(c, f) == Suppress
    ensures f.headers["eventname"] == PROCESS_STATE_EXITED && "processname" in f.payload
            && "groupname" in f.payload && f.payload["processname"] !in c.excluded
            && (c.any || f.payload["processname"] in c.programs)
            ==> Decide(c, f) == KeyError("from_state")
  {
    var p := Enrich(f.payload, f.headers["eventname"]);
    InterpolateOutcome(MessageTemplate, p);
    if f.headers["eventname"] == PROCESS_STATE_EXITED && "processname" in f.payload
       && "groupname" in f.payload && f.payload["processname"] !in c.excluded
       && (c.any || f.payload["processname"] in c.programs)
    {
      assert MessageTemplate[7] == Field("from_state");
      assert !FieldsPresent(MessageTemplate, p);
      var k := Interpolate(MessageTemplate, p).error;
      var i :| 0 <= i < |MessageTemplate| && MessageTemplate[i] == Field(k)
               && MessageTemplate[i].key !in p && FieldsPresent(MessageTemplate[..i], p);
    }
  }

  predicate SameField(m1: map<string, string>, m2: map<string, string>, k: string) {
    (k in m1 <==> k in m2) && (k in m1 ==> m1[k] == m2[k])
  }

  /** The decision depends on nothing but the header `eventname`, the payload
      fields `processname`, `groupname` and `from_state`, and the time: in
      particular there is no gate on `expected`, and a payload `eventname` is
      ignored. */
  lemma DecideReadsNamedFields(c: ListenerConfig, f: Frame, g: Frame)
    requires ("eventname" in f.headers <==> "eventname" in g.headers)
    requires "eventname" in f.headers ==> f.headers["eventname"] == g.headers["eventname"]
    requires SameField(f.payload, g.payload, "processname")
    requires SameField(f.payload, g.payload, "groupname")
    requires SameField(f.payload, g.payload, "from_state")
    requires f.asctime == g.asctime
    ensures Decide(c, f) == Decide(c, g)
  {
    if "eventname" in f.headers {
      var e := f.headers["eventname"];
      var p := Enrich(f.payload, e);
      var q := Enrich(g.payload, e);
      assert MessageTemplate[1].key == "processname";
      assert MessageTemplate[3].key == "groupname";
      assert MessageTemplate[5].key == "eventname";
      assert MessageTemplate[7].key == "from_state";
      InterpolateReadsFields(MessageTemplate, p, q);
    }
  }
}
