/** Alert mails: when a rule's mail goes out, when it is repeated, and when its recovery is reported. */
module Alerts {
  import opened Words

  /** The name of a rule, which is only ever compared. */
  type Key = nat

  datatype Config = Config(recipient: string, cooldown: nat, samples: nat)

  datatype Rule = Rule(count: nat, active: bool, lastSent: int, title: string)

  /** A mail that was delivered. */
  datatype Mail = Alert(title: string, at: int) | Recovery(title: string, at: int)

  const NO_TIME := 0
  const NEW_RULE := Rule(0, false, NO_TIME, "")

  // ---- one rule, one evaluation --------------------------------------------------------------

  /** The rule applies: it has to have been seen often enough, and a reminder waits for the cooldown. */
  function Raised(cfg: Config, rule: Rule, title: string, now: int, ok: bool): (Rule, seq<Mail>) {
    var seen := rule.(count := rule.count + 1);
    if !seen.active && seen.count < cfg.samples then (seen, [])
    else if seen.active && seen.lastSent != NO_TIME && now - seen.lastSent < cfg.cooldown then (seen, [])
    else if !ok then (seen, [])
    else (seen.(active := true, lastSent := now, title := title), [Alert(title, now)])
  }

  /** The rule's state, if it has one, and the mail delivered; a delivered recovery forgets the rule. */
  function Step(cfg: Config, rule: Option<Rule>, raised: Option<string>, now: int, ok: bool): (Option<Rule>, seq<Mail>) {
    match raised
    case Some(title) =>
      var (next, mails) := Raised(cfg, if rule.Some? then rule.value else NEW_RULE, title, now, ok);
      (Some(next), mails)
    case None =>
      if rule.Some? && rule.value.active && ok then (None, [Recovery(rule.value.title, now)]) else (rule, [])
  }

  // ---- the manager ---------------------------------------------------------------------------

  /** The mails of one rule among all that were delivered. */
  ghost function MailsOf(outbox: seq<(Key, Mail)>, key: Key): seq<Mail> {
    if outbox == [] then []
    else MailsOf(outbox[..|outbox| - 1], key)
         + (if outbox[|outbox| - 1].0 == key then [outbox[|outbox| - 1].1] else [])
  }

  /** One evaluation: what it starts from, the rules that are raised, and the mails that cannot be delivered. */
  datatype Round = Round(cfg: Config, states: map<Key, Rule>, outbox: seq<(Key, Mail)>, raised: map<Key, string>,
                         now: int, down: set<Key>)

  /** What the evaluation makes of one rule. */
  ghost function Outcome(r: Round, key: Key): (Option<Rule>, seq<Mail>) {
    Step(r.cfg, Lookup(r.states, key), Lookup(r.raised, key), r.now, key !in r.down)
  }

  /** An evaluation has taken the manager there: every rule and its mails as its own step has it. */
  ghost predicate Evaluated(r: Round, states: map<Key, Rule>, outbox: seq<(Key, Mail)>) {
    forall key :: RuleFollows(r, states, outbox, key)
  }

  ghost predicate RuleFollows(r: Round, states: map<Key, Rule>, outbox: seq<(Key, Mail)>, key: Key) {
    Lookup(states, key) == Outcome(r, key).0 && MailsOf(outbox, key) == MailsOf(r.outbox, key) + Outcome(r, key).1
  }

  ghost predicate RuleAt(r: Round, done: set<Key>, states: map<Key, Rule>, key: Key) {
    Lookup(states, key) == if key in done then Outcome(r, key).0 else Lookup(r.states, key)
  }

  ghost predicate MailsAt(r: Round, done: set<Key>, outbox: seq<(Key, Mail)>, key: Key) {
    MailsOf(outbox, key) == MailsOf(r.outbox, key) + if key in done then Outcome(r, key).1 else []
  }

  /** The rules in `done` have been dealt with and the others not yet. */
  ghost predicate Halfway(r: Round, done: set<Key>, states: map<Key, Rule>, outbox: seq<(Key, Mail)>) {
    (forall key :: RuleAt(r, done, states, key)) && (forall key :: MailsAt(r, done, outbox, key))
  }

  lemma NoneDone(r: Round)
    ensures Halfway(r, {}, r.states, r.outbox)
  {
  }

  /** A mail or none, on the end of the outbox. */
  function Posted(outbox: seq<(Key, Mail)>, key: Key, mails: seq<Mail>): seq<(Key, Mail)> {
    if mails == [] then outbox else outbox + [(key, mails[0])]
  }

  lemma PostedTo(outbox: seq<(Key, Mail)>, key: Key, mails: seq<Mail>, k: Key)
    requires |mails| <= 1
    ensures MailsOf(Posted(outbox, key, mails), k) == MailsOf(outbox, k) + (if k == key then mails else [])
  {
  }

  lemma OneMoreDone(r: Round, done: set<Key>, states: map<Key, Rule>, outbox: seq<(Key, Mail)>, key: Key,
                    next: map<Key, Rule>)
    requires Halfway(r, done, states, outbox) && key !in done
    requires next == match Outcome(r, key).0 case Some(rule) => states[key := rule] case None => states - {key}
    ensures Halfway(r, done + {key}, next, Posted(outbox, key, Outcome(r, key).1))
  {
    hide Step;
    var mails := Outcome(r, key).1;
    AtMostOne(r.cfg, Lookup(r.states, key), Lookup(r.raised, key), r.now, key !in r.down);
    forall k ensures RuleAt(r, done + {key}, next, k) {
      assert RuleAt(r, done, states, k);
    }
    forall k ensures MailsAt(r, done + {key}, Posted(outbox, key, mails), k) {
      assert MailsAt(r, done, outbox, k);
      PostedTo(outbox, key, mails, k);
    }
  }

  lemma AtMostOne(cfg: Config, rule: Option<Rule>, raised: Option<string>, now: int, ok: bool)
    ensures |Step(cfg, rule, raised, now, ok).1| <= 1
  {
  }

  class Manager {
    const cfg: Config
    var states: map<Key, Rule>
    var outbox: seq<(Key, Mail)>        // what the notifier delivered

    constructor (recipient: string, cooldown: int, samples: int)
      ensures cfg == Config(recipient, if cooldown <= 0 then 1_800_000 else cooldown, if samples <= 0 then 2 else samples)
      ensures states == map[] && outbox == []
    {
      cfg := Config(recipient, if cooldown <= 0 then 1_800_000 else cooldown, if samples <= 0 then 2 else samples);
      states, outbox := map[], [];
    }

    /**
     * Every raised rule and then every remembered one, each in whatever order its map gives; mails about
     * the rules in `down` cannot be delivered this time.
     */
    method Evaluate(raised: map<Key, string>, now: int, down: set<Key>)
      modifies this
      ensures TrimSpace(cfg.recipient) == "" ==> states == old(states) && outbox == old(outbox)
      ensures TrimSpace(cfg.recipient) != "" ==>
        Evaluated(Round(cfg, old(states), old(outbox), raised, now, down), states, outbox)
    {
      if TrimSpace(cfg.recipient) == "" {
        return;
      }
      ghost var r := Round(cfg, states, outbox, raised, now, down);
      NoneDone(r);
      RaiseAll(r, raised, now, down);
      ghost var known := states.Keys;
      forall key | key !in raised.Keys + known ensures key !in r.states && key !in r.raised {
        assert RuleAt(r, raised.Keys, states, key);
      }
      RecoverAll(r, raised, now, down);
      forall key ensures RuleFollows(r, states, outbox, key) {
        assert RuleAt(r, raised.Keys + known, states, key) && MailsAt(r, raised.Keys + known, outbox, key);
      }
    }

    method RaiseAll(ghost r: Round, raised: map<Key, string>, now: int, down: set<Key>)
      requires r == Round(cfg, states, outbox, raised, now, down)
      modifies this
      ensures Halfway(r, raised.Keys, states, outbox)
    {
      hide Halfway, Step;
      NoneDone(r);
      var left := raised.Keys;
      ghost var done := {};
      while left != {}
        invariant left !! done && done + left == raised.Keys
        invariant Halfway(r, done, states, outbox)
        decreases |left|
      {
        var key :| key in left;
        RaiseOne(r, raised, now, down, key, done);
        left, done := left - {key}, done + {key};
      }
      assert done == raised.Keys;
    }

    method RaiseOne(ghost r: Round, raised: map<Key, string>, now: int, down: set<Key>, key: Key, ghost done: set<Key>)
      requires r.cfg == cfg && (r.raised, r.now, r.down) == (raised, now, down)
      requires key in raised && key !in done && Halfway(r, done, states, outbox)
      modifies this
      ensures Halfway(r, done + {key}, states, outbox)
    {
      var rule := if key in states then states[key] else NEW_RULE;
      assert RuleAt(r, done, states, key);
      var (next, mails) := Raised(cfg, rule, raised[key], now, key !in down);
      OneMoreDone(r, done, states, outbox, key, states[key := next]);
      outbox := Posted(outbox, key, mails);
      states := states[key := next];
    }

    method RecoverAll(ghost r: Round, raised: map<Key, string>, now: int, down: set<Key>)
      requires r.cfg == cfg && (r.raised, r.now, r.down) == (raised, now, down)
      requires Halfway(r, raised.Keys, states, outbox)
      modifies this
      ensures Halfway(r, raised.Keys + old(states).Keys, states, outbox)
    {
      hide Halfway, Step;
      var others := states.Keys - raised.Keys;
      assert raised.Keys + others == raised.Keys + states.Keys;
      RecoverThese(r, raised, now, down, others, raised.Keys);
    }

    method RecoverThese(ghost r: Round, raised: map<Key, string>, now: int, down: set<Key>, keys: set<Key>,
                        ghost before: set<Key>)
      requires r.cfg == cfg && (r.raised, r.now, r.down) == (raised, now, down)
      requires Halfway(r, before, states, outbox)
      requires forall key :: key in keys ==> key !in raised && key !in before
      modifies this
      ensures Halfway(r, before + keys, states, outbox)
    {
      hide Halfway, Step;
      var left := keys;
      ghost var done := before;
      while left != {}
        invariant left <= keys && left !! done && done + left == before + keys
        invariant Halfway(r, done, states, outbox)
        decreases |left|
      {
        var key :| key in left;
        RecoverOne(r, raised, now, down, key, done);
        left, done := left - {key}, done + {key};
      }
      assert done == before + keys;
    }

    method RecoverOne(ghost r: Round, raised: map<Key, string>, now: int, down: set<Key>, key: Key, ghost done: set<Key>)
      requires r.cfg == cfg && (r.raised, r.now, r.down) == (raised, now, down)
      requires key !in raised && key !in done && Halfway(r, done, states, outbox)
      modifies this
      ensures Halfway(r, done + {key}, states, outbox)
    {
      assert RuleAt(r, done, states, key);
      if key in states && states[key].active && key !in down {
        OneMoreDone(r, done, states, outbox, key, states - {key});
        outbox := outbox + [(key, Recovery(states[key].title, now))];
        states := states - {key};
      } else {
        assert key !in states ==> states - {key} == states;
        assert key in states ==> states[key := states[key]] == states;
        OneMoreDone(r, done, states, outbox, key, states);
      }
    }
  }

  // ---- the mails of one rule -----------------------------------------------------------------

  /** What one evaluation means to one rule. */
  datatype Sample = Sample(raised: Option<string>, now: int, ok: bool)

  function After(cfg: Config, samples: seq<Sample>): (Option<Rule>, seq<Mail>) {
    if samples == [] then (None, [])
    else
      var n := |samples| - 1;
      var (rule, mails) := After(cfg, samples[..n]);
      var (next, more) := Step(cfg, rule, samples[n].raised, samples[n].now, samples[n].ok);
      (next, mails + more)
  }

  /** Alerts, then one recovery, then alerts again: `(alert+ recovery)*`, cut off anywhere. */
  ghost predicate Shape(mails: seq<Mail>) {
    forall i :: 0 <= i < |mails| && mails[i].Recovery? ==>
      i > 0 && mails[i - 1].Alert? && mails[i].title == mails[i - 1].title
  }

  /** Alerts with no recovery between them are a cooldown apart. */
  ghost predicate Spaced(cfg: Config, mails: seq<Mail>) {
    forall i :: 0 < i < |mails| && mails[i].Alert? && mails[i - 1].Alert? ==>
      mails[i].at - mails[i - 1].at >= cfg.cooldown
  }

  /** The rule is active just when its last mail was an alert, which it remembers. */
  ghost predicate Remembers(rule: Option<Rule>, mails: seq<Mail>) {
    if mails != [] && mails[|mails| - 1].Alert? then
      rule.Some? && rule.value.active && mails[|mails| - 1] == Alert(rule.value.title, rule.value.lastSent)
    else
      rule.Some? ==> !rule.value.active
  }

  ghost predicate ClockRuns(samples: seq<Sample>) {
    forall s :: s in samples ==> s.now != NO_TIME
  }

  ghost predicate Sound(cfg: Config, rule: Option<Rule>, mails: seq<Mail>) {
    && Shape(mails) && Spaced(cfg, mails) && Remembers(rule, mails)
    && forall i :: 0 <= i < |mails| ==> mails[i].at != NO_TIME
  }

  lemma NothingSent(cfg: Config, rule: Option<Rule>, mails: seq<Mail>, next: Option<Rule>)
    requires Sound(cfg, rule, mails)
    requires next.Some? ==> if rule.Some? then next.value == rule.value.(count := next.value.count)
                            else !next.value.active
    requires next.None? ==> rule.None?
    ensures Sound(cfg, next, mails)
  {
  }

  lemma AlertSent(cfg: Config, rule: Option<Rule>, mails: seq<Mail>, next: Rule)
    requires Sound(cfg, rule, mails)
    requires rule.Some? && rule.value.active ==> next.lastSent - rule.value.lastSent >= cfg.cooldown
    requires next.active && next.lastSent != NO_TIME
    ensures Sound(cfg, Some(next), mails + [Alert(next.title, next.lastSent)])
  {
  }

  lemma RecoverySent(cfg: Config, rule: Rule, mails: seq<Mail>, now: int)
    requires Sound(cfg, Some(rule), mails) && rule.active && now != NO_TIME
    ensures Sound(cfg, None, mails + [Recovery(rule.title, now)])
  {
  }

  lemma SoundTimes(cfg: Config, rule: Option<Rule>, mails: seq<Mail>)
    requires Sound(cfg, rule, mails)
    ensures rule.Some? && rule.value.active ==> rule.value.lastSent != NO_TIME
  {
  }

  lemma StepIsSound(cfg: Config, rule: Option<Rule>, mails: seq<Mail>, s: Sample)
    requires Sound(cfg, rule, mails) && s.now != NO_TIME
    ensures var (next, more) := Step(cfg, rule, s.raised, s.now, s.ok); Sound(cfg, next, mails + more)
  {
    hide Sound;
    var (next, more) := Step(cfg, rule, s.raised, s.now, s.ok);
    SoundTimes(cfg, rule, mails);
    if more == [] {
      assert mails + more == mails;
      NothingSent(cfg, rule, mails, next);
    } else if s.raised.Some? {
      AlertSent(cfg, rule, mails, next.value);
    } else {
      RecoverySent(cfg, rule.value, mails, s.now);
    }
  }

  /**
   * Whatever the clock shows and whichever mails fail, a rule's mails have that shape, and within an
   * episode its alerts are at least a cooldown apart.
   */
  lemma {:induction false} MailsHaveShape(cfg: Config, samples: seq<Sample>)
    requires ClockRuns(samples)
    ensures var (rule, mails) := After(cfg, samples); Sound(cfg, rule, mails)
  {
    if samples != [] {
      hide Sound, Step;
      var n := |samples| - 1;
      MailsHaveShape(cfg, samples[..n]);
      var (rule, mails) := After(cfg, samples[..n]);
      assert samples[n] in samples;
      StepIsSound(cfg, rule, mails, samples[n]);
    }
  }

  /** So any two alerts of one episode are, not only neighbours. */
  lemma {:induction false} EpisodeSpaced(cfg: Config, mails: seq<Mail>, i: nat, j: nat)
    requires Spaced(cfg, mails) && i < j < |mails| && forall k :: i <= k <= j ==> mails[k].Alert?
    ensures mails[j].at - mails[i].at >= cfg.cooldown * (j - i)
    decreases j
  {
    if i + 1 < j {
      EpisodeSpaced(cfg, mails, i, j - 1);
    }
  }

  // ---- the manager over its whole life -------------------------------------------------------

  /** One evaluation as it comes from outside. */
  datatype Event = Event(raised: map<Key, string>, now: int, down: set<Key>)

  /** What the evaluations mean to one rule. */
  function SamplesOf(events: seq<Event>, key: Key): seq<Sample> {
    if events == [] then []
    else
      var last := events[|events| - 1];
      SamplesOf(events[..|events| - 1], key) + [Sample(Lookup(last.raised, key), last.now, key !in last.down)]
  }

  datatype Moment = Moment(states: map<Key, Rule>, outbox: seq<(Key, Mail)>)

  /** A manager from its beginning through some evaluations, each in any order of its maps. */
  ghost predicate History(cfg: Config, moments: seq<Moment>, events: seq<Event>) {
    && |moments| == |events| + 1 && moments[0] == Moment(map[], [])
    && forall n :: 0 <= n < |events| ==> Follows(cfg, moments[n], events[n], moments[n + 1])
  }

  ghost predicate Follows(cfg: Config, before: Moment, e: Event, after: Moment) {
    Evaluated(Round(cfg, before.states, before.outbox, e.raised, e.now, e.down), after.states, after.outbox)
  }

  /** Every rule and its mails are what its own samples make of it, whatever happens to the other rules. */
  lemma {:induction false} RulesAreIndependent(cfg: Config, moments: seq<Moment>, events: seq<Event>, key: Key)
    requires History(cfg, moments, events)
    ensures (Lookup(moments[|events|].states, key), MailsOf(moments[|events|].outbox, key))
            == After(cfg, SamplesOf(events, key))
    decreases |events|
  {
    if events != [] {
      hide Step, Evaluated;
      var n := |events| - 1;
      RulesAreIndependent(cfg, moments[..n + 1], events[..n], key);
      assert Follows(cfg, moments[n], events[n], moments[n + 1]);
      RuleOf(cfg, moments[n], events[n], moments[n + 1], key);
      var earlier := SamplesOf(events[..n], key);
      var samples := SamplesOf(events, key);
      assert samples[..|samples| - 1] == earlier;
    }
  }

  lemma RuleOf(cfg: Config, before: Moment, e: Event, after: Moment, key: Key)
    requires Follows(cfg, before, e, after)
    ensures var (rule, mails) := Step(cfg, Lookup(before.states, key), Lookup(e.raised, key), e.now, key !in e.down);
      Lookup(after.states, key) == rule && MailsOf(after.outbox, key) == MailsOf(before.outbox, key) + mails
  {
    assert RuleFollows(Round(cfg, before.states, before.outbox, e.raised, e.now, e.down), after.states, after.outbox, key);
  }

  /**
   * Over a manager's whole life, in whatever order its maps are gone through and whichever mails fail, the
   * mails of every rule have that shape, and its alerts of one episode are a cooldown apart.
   */
  lemma ManagerKeepsShape(cfg: Config, moments: seq<Moment>, events: seq<Event>, key: Key)
    requires History(cfg, moments, events) && forall n :: 0 <= n < |events| ==> events[n].now != NO_TIME
    ensures var mails := MailsOf(moments[|events|].outbox, key); Shape(mails) && Spaced(cfg, mails)
  {
    hide Shape, Spaced, History, Remembers;
    RulesAreIndependent(cfg, moments, events, key);
    SamplesRun(events, key);
    MailsHaveShape(cfg, SamplesOf(events, key));
  }

  lemma {:induction false} SamplesRun(events: seq<Event>, key: Key)
    requires forall n :: 0 <= n < |events| ==> events[n].now != NO_TIME
    ensures ClockRuns(SamplesOf(events, key))
  {
    if events != [] { SamplesRun(events[..|events| - 1], key); }
  }

  // ---- how soon the first alert ---------------------------------------------------------------

  function Qualifying(samples: seq<Sample>): nat {
    if samples == [] then 0
    else Qualifying(samples[..|samples| - 1]) + (if samples[|samples| - 1].raised.Some? then 1 else 0)
  }

  /** With no mail since the rule was last forgotten, it counts the samples that raised it since then. */
  lemma {:induction false} CountsQualifying(cfg: Config, before: seq<Sample>, since: seq<Sample>)
    requires After(cfg, before).0 == None && After(cfg, before + since).1 == After(cfg, before).1
    ensures var rule := After(cfg, before + since).0;
      if rule.Some? then !rule.value.active && rule.value.count == Qualifying(since) else Qualifying(since) == 0
  {
    if since == [] {
      assert before + since == before;
    } else {
      var n := |since| - 1;
      assert (before + since)[..|before + since| - 1] == before + since[..n];
      MailsGrow(cfg, before, since[..n]);
      CountsQualifying(cfg, before, since[..n]);
    }
  }

  lemma {:induction false} MailsGrow(cfg: Config, before: seq<Sample>, since: seq<Sample>)
    ensures After(cfg, before).1 <= After(cfg, before + since).1
  {
    if since == [] {
      assert before + since == before;
    } else {
      var n := |since| - 1;
      assert (before + since)[..|before + since| - 1] == before + since[..n];
      MailsGrow(cfg, before, since[..n]);
    }
  }

  /**
   * The first alert of an episode goes out exactly with the first deliverable sample that raises the rule
   * when, counting it, enough samples have raised it since the rule was last forgotten. They need not be
   * consecutive: a clear sample in between takes nothing off the count.
   */
  lemma FirstAlertExactly(cfg: Config, before: seq<Sample>, since: seq<Sample>, s: Sample)
    requires After(cfg, before).0 == None && After(cfg, before + since).1 == After(cfg, before).1
    requires s.raised.Some?
    ensures After(cfg, before + since + [s]).1 ==
      After(cfg, before).1
      + (if Qualifying(since) + 1 >= cfg.samples && s.ok then [Alert(s.raised.value, s.now)] else [])
  {
    CountsQualifying(cfg, before, since);
    assert (before + since + [s])[..|before + since|] == before + since;
  }

  /**
   * While an episode lasts, a deliverable sample that raises the rule sends a reminder exactly when the last
   * alert is a cooldown ago, a deliverable clear one reports the recovery and forgets the rule, and a sample
   * whose mail cannot be delivered sends nothing.
   */
  lemma NextMailExactly(cfg: Config, samples: seq<Sample>, s: Sample)
    requires ClockRuns(samples)
    requires var mails := After(cfg, samples).1; mails != [] && mails[|mails| - 1].Alert?
    ensures var mails := After(cfg, samples).1;
      var last := mails[|mails| - 1];
      After(cfg, samples + [s]).1 == mails +
        if !s.ok then []
        else if s.raised.None? then [Recovery(last.title, s.now)]
        else if s.now - last.at >= cfg.cooldown then [Alert(s.raised.value, s.now)]
        else []
    ensures s.ok && s.raised.None? ==> After(cfg, samples + [s]).0 == None
  {
    MailsHaveShape(cfg, samples);
    assert (samples + [s])[..|samples|] == samples;
  }

  /** Between episodes a clear sample sends nothing and changes nothing. */
  lemma ClearIsQuiet(cfg: Config, samples: seq<Sample>, s: Sample)
    requires ClockRuns(samples) && s.raised.None?
    requires var mails := After(cfg, samples).1; mails != [] ==> mails[|mails| - 1].Recovery?
    ensures After(cfg, samples + [s]) == After(cfg, samples)
  {
    MailsHaveShape(cfg, samples);
    assert (samples + [s])[..|samples|] == samples;
    assert After(cfg, samples).1 + [] == After(cfg, samples).1;
  }

  /** Two raised samples with a clear one between them are enough for an alert that asks for two in a row. */
  lemma NeedNotBeConsecutive(recipient: string, cooldown: nat, a: string, b: string, t: int, u: int, v: int)
    ensures After(Config(recipient, cooldown, 2), [Sample(Some(a), t, true), Sample(None, u, true), Sample(Some(b), v, true)]).1
            == [Alert(b, v)]
  {
    var cfg := Config(recipient, cooldown, 2);
    var since := [Sample(Some(a), t, true), Sample(None, u, true)];
    assert since[..1] == [Sample(Some(a), t, true)];
    assert [Sample(Some(a), t, true)][..0] == [];
    assert After(cfg, since[..1]).1 == [];
    assert [] + since == since;
    FirstAlertExactly(cfg, [], since, Sample(Some(b), v, true));
    assert [] + since + [Sample(Some(b), v, true)] == [Sample(Some(a), t, true), Sample(None, u, true), Sample(Some(b), v, true)];
  }
}
