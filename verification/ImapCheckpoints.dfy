/** The IMAP connector's checkpoint machine: mailboxes, then pages of message ids. */
module ImapCheckpoints {
  import opened Sequences

  const PAGE_SIZE: nat := 100

  datatype Message = Message(date: int, attachments: seq<string>)

  /** What the account holds: configured or listed mailboxes, the ids found in each (under its quoted name),
      and the messages that can be fetched. */
  datatype Account = Account(configured: seq<string>, listed: seq<string>, ids: map<string, seq<string>>,
                             messages: map<(string, string), Message>)

  datatype CurrentMailbox = CurrentMailbox(mailbox: string, todo: seq<string>)

  datatype Checkpoint = Checkpoint(hasMore: bool, todoMailboxes: Option<seq<string>>, current: Option<CurrentMailbox>)

  const DUMMY: Checkpoint := Checkpoint(true, None, None)

  datatype Doc = EmailDoc(mailbox: string, id: string) | AttachmentDoc(mailbox: string, id: string, name: string)

  function NonEmpty(): string -> bool {
    (m: string) => m != ""
  }

  function Quote(): string -> string {
    (m: string) => "\"" + m + "\""
  }

  function Sanitize(mailboxes: seq<string>): seq<string> {
    Map(Quote(), Filter(NonEmpty(), mailboxes))
  }

  /** None when no mailbox can be found: the source raises. */
  function Mailboxes(a: Account): Option<seq<string>> {
    if a.configured != [] then Some(Sanitize(a.configured))
    else if a.listed != [] then Some(Sanitize(a.listed))
    else None
  }

  function IdsIn(a: Account, mailbox: string): seq<string> {
    if mailbox in a.ids then a.ids[mailbox] else []
  }

  function Attachments(mailbox: string, id: string, names: seq<string>): seq<Doc> {
    seq(|names|, i requires 0 <= i < |names| => AttachmentDoc(mailbox, id, names[i]))
  }

  /** What one attempted id yields: nothing if it cannot be fetched or lies outside the window. */
  function DocsFor(a: Account, start: int, end: int, mailbox: string, id: string): seq<Doc> {
    if (mailbox, id) !in a.messages then []
    else
      var m := a.messages[(mailbox, id)];
      if start < m.date <= end then [EmailDoc(mailbox, id)] + Attachments(mailbox, id, m.attachments) else []
  }

  function DocsForAll(a: Account, start: int, end: int, mailbox: string, ids: seq<string>): seq<Doc> {
    if ids == [] then []
    else DocsForAll(a, start, end, mailbox, ids[..|ids| - 1]) + DocsFor(a, start, end, mailbox, ids[|ids| - 1])
  }

  /** The mailbox a call works on and what it has left there, after moving on if need be. */
  predicate Finished(c: Checkpoint) {
    (c.current.None? || c.current.value.todo == []) && c.todoMailboxes == Some([])
  }

  function Opened(a: Account, c: Checkpoint): Checkpoint
    requires c.todoMailboxes.Some? && !Finished(c)
  {
    if c.current.Some? && c.current.value.todo != [] then c
    else
      var n := |c.todoMailboxes.value| - 1;
      var mailbox := c.todoMailboxes.value[n];
      c.(todoMailboxes := Some(c.todoMailboxes.value[..n]), current := Some(CurrentMailbox(mailbox, IdsIn(a, mailbox))))
  }

  function PageOf(ids: seq<string>): seq<string> {
    ids[..Min(PAGE_SIZE, |ids|)]
  }

  function RestOf(ids: seq<string>): seq<string> {
    ids[Min(PAGE_SIZE, |ids|)..]
  }

  /** One call: the checkpoint it returns, None if it raises, and the mailbox and ids it attempts. */
  function Next(a: Account, c: Checkpoint): (Option<Checkpoint>, string, seq<string>) {
    if c.todoMailboxes.None? then
      var boxes := Mailboxes(a);
      (if boxes.None? then None else Some(Checkpoint(true, boxes, c.current)), "", [])
    else if Finished(c) then (Some(c.(hasMore := false)), "", [])
    else
      var o := Opened(a, c);
      var CurrentMailbox(mailbox, todo) := o.current.value;
      (Some(o.(hasMore := true, current := Some(CurrentMailbox(mailbox, RestOf(todo))))), mailbox, PageOf(todo))
  }

  lemma DocsStep(a: Account, start: int, end: int, mailbox: string, page: seq<string>, i: nat)
    requires i < |page|
    ensures DocsForAll(a, start, end, mailbox, page[..i + 1])
         == DocsForAll(a, start, end, mailbox, page[..i]) + DocsFor(a, start, end, mailbox, page[i])
  {
    hide DocsFor;
    assert page[..i + 1][..i] == page[..i];
  }

  /** The documents of one page of ids: an id that cannot be fetched or lies outside the window is skipped. */
  method FetchPage(a: Account, start: int, end: int, mailbox: string, page: seq<string>) returns (docs: seq<Doc>)
    ensures docs == DocsForAll(a, start, end, mailbox, page)
  {
    hide DocsForAll, Attachments;
    docs := [];
    NoDocs(a, start, end, mailbox);
    for i := 0 to |page|
      invariant docs == DocsForAll(a, start, end, mailbox, page[..i])
    {
      DocsStep(a, start, end, mailbox, page, i);
      assert docs + [] == docs;
      if (mailbox, page[i]) !in a.messages {
        continue;
      }
      var m := a.messages[(mailbox, page[i])];
      if !(start < m.date <= end) {
        continue;
      }
      docs := docs + ([EmailDoc(mailbox, page[i])] + Attachments(mailbox, page[i], m.attachments));
    }
    assert page[..|page|] == page;
  }

  lemma NoDocs(a: Account, start: int, end: int, mailbox: string)
    ensures DocsForAll(a, start, end, mailbox, []) == []
  {
  }

  method LoadFromCheckpoint(a: Account, start: int, end: int, checkpoint: Checkpoint)
    returns (docs: seq<Doc>, next: Option<Checkpoint>)
    ensures next == Next(a, checkpoint).0
    ensures docs == DocsForAll(a, start, end, Next(a, checkpoint).1, Next(a, checkpoint).2)
  {
    hide DocsForAll, PageOf, RestOf, IdsIn, Mailboxes;
    NoDocs(a, start, end, "");
    var c := checkpoint.(hasMore := true);
    if c.todoMailboxes.None? {
      var boxes := Mailboxes(a);
      if boxes.None? {
        return [], None;
      }
      c := c.(todoMailboxes := boxes);
      return [], Some(c);
    }
    if c.current.None? || c.current.value.todo == [] {
      var boxes := c.todoMailboxes.value;
      if boxes == [] {
        c := c.(hasMore := false);
        return [], Some(c);
      }
      var mailbox := boxes[|boxes| - 1];
      c := c.(todoMailboxes := Some(boxes[..|boxes| - 1]));
      c := c.(current := Some(CurrentMailbox(mailbox, IdsIn(a, mailbox))));
    }
    var CurrentMailbox(mailbox, todo) := c.current.value;
    var page := PageOf(todo);
    c := c.(current := Some(CurrentMailbox(mailbox, RestOf(todo))));
    docs := FetchPage(a, start, end, mailbox, page);
    next := Some(c);
  }

  // ---------------------------------------------------------------- whole runs

  datatype Attempt = Attempt(mailbox: string, id: string)

  function Tag(mailbox: string, ids: seq<string>): seq<Attempt> {
    seq(|ids|, i requires 0 <= i < |ids| => Attempt(mailbox, ids[i]))
  }

  /** Calling from checkpoint to checkpoint until one says there is no more: the number of calls and the
      attempts. None if a call raises. */
  function Run(a: Account, c: Checkpoint): Option<(nat, seq<Attempt>)>
    decreases if c.todoMailboxes.None? then 1 else 0,
              if c.todoMailboxes.None? then 0 else |c.todoMailboxes.value|,
              if c.current.None? then 0 else |c.current.value.todo|
  {
    var (next, mailbox, ids) := Next(a, c);
    if next.None? then None
    else if !next.value.hasMore then Some((1, Tag(mailbox, ids)))
    else
      var rest := Run(a, next.value);
      if rest.None? then None else Some((1 + rest.value.0, Tag(mailbox, ids) + rest.value.1))
  }

  /** Every id of every mailbox, the last mailbox first, each in its own order. */
  function AllAttempts(a: Account, boxes: seq<string>): seq<Attempt> {
    if boxes == [] then []
    else
      var n := |boxes| - 1;
      Tag(boxes[n], IdsIn(a, boxes[n])) + AllAttempts(a, boxes[..n])
  }

  /** Full and partial pages of `n` ids. */
  function Pages(n: nat): nat {
    (n + 99) / 100
  }

  /** An empty mailbox costs a call too. */
  function CallsFor(a: Account, boxes: seq<string>): nat {
    if boxes == [] then 0
    else
      var n := |boxes| - 1;
      Max(1, Pages(|IdsIn(a, boxes[n])|)) + CallsFor(a, boxes[..n])
  }

  lemma PagesStep(n: nat)
    requires n > 0
    ensures Pages(n) == 1 + Pages(if n <= PAGE_SIZE then 0 else n - PAGE_SIZE)
  {
    if n > PAGE_SIZE {
      assert (n + 99) / 100 == (n - 1) / 100 + 1;
    }
  }

  lemma TagConcat(mailbox: string, ids: seq<string>)
    ensures Tag(mailbox, PageOf(ids)) + Tag(mailbox, RestOf(ids)) == Tag(mailbox, ids)
  {
  }

  lemma RunUnfolds(a: Account, c: Checkpoint)
    requires c.todoMailboxes.Some?
    ensures Finished(c) ==> Run(a, c) == Some((1, Tag("", [])))
    ensures !Finished(c) ==>
              var cur := Opened(a, c).current.value;
              var rest := Run(a, Next(a, c).0.value);
              Run(a, c) == if rest.None? then None
                           else Some((1 + rest.value.0, Tag(cur.mailbox, PageOf(cur.todo)) + rest.value.1))
  {
    hide Tag, PageOf, RestOf, IdsIn;
  }

  function Waiting(c: Checkpoint): CurrentMailbox {
    if c.current.Some? then c.current.value else CurrentMailbox("", [])
  }

  /** The attempts and calls still to come. */
  lemma {:induction false} RunFrom(a: Account, c: Checkpoint)
    requires c.todoMailboxes.Some?
    ensures Run(a, c) == Some((Pages(|Waiting(c).todo|) + CallsFor(a, c.todoMailboxes.value) + 1,
                               Tag(Waiting(c).mailbox, Waiting(c).todo) + AllAttempts(a, c.todoMailboxes.value)))
    decreases |c.todoMailboxes.value|, |Waiting(c).todo|
  {
    hide Run, Tag, Pages, PageOf, RestOf, IdsIn;
    RunUnfolds(a, c);
    NothingWaiting(Waiting(c).mailbox, AllAttempts(a, c.todoMailboxes.value));
    if !Finished(c) {
      var o := Opened(a, c);
      var next := Next(a, c).0.value;
      OnePage(Waiting(o).mailbox, Waiting(o).todo, AllAttempts(a, o.todoMailboxes.value));
      RunFrom(a, next);
    }
  }

  lemma NothingWaiting(mailbox: string, later: seq<Attempt>)
    ensures Tag(mailbox, []) + later == later && Tag("", []) == [] && Pages(0) == 0
  {
    assert Tag(mailbox, []) == [];
  }

  lemma OnePage(mailbox: string, todo: seq<string>, later: seq<Attempt>)
    ensures Tag(mailbox, PageOf(todo)) + (Tag(mailbox, RestOf(todo)) + later) == Tag(mailbox, todo) + later
    ensures 1 + Pages(|RestOf(todo)|) == Max(1, Pages(|todo|))
    ensures todo != [] ==> Pages(|todo|) > 0 && |RestOf(todo)| < |todo|
  {
    TagConcat(mailbox, todo);
    assert Tag(mailbox, PageOf(todo)) + (Tag(mailbox, RestOf(todo)) + later)
        == (Tag(mailbox, PageOf(todo)) + Tag(mailbox, RestOf(todo))) + later;
    if todo != [] {
      PagesStep(|todo|);
    }
  }

  /** From the dummy checkpoint, every message id of every mailbox is attempted exactly once and in order,
      the last mailbox first, in exactly two calls more than the mailboxes' pages. */
  lemma FullRun(a: Account)
    ensures Mailboxes(a).None? ==> Run(a, DUMMY).None?
    ensures Mailboxes(a).Some? ==>
              Run(a, DUMMY) == Some((2 + CallsFor(a, Mailboxes(a).value), AllAttempts(a, Mailboxes(a).value)))
  {
    hide Run, Tag, AllAttempts, CallsFor, Pages, Mailboxes;
    RunDummy(a);
    if Mailboxes(a).Some? {
      var first := Checkpoint(true, Mailboxes(a), None);
      RunFrom(a, first);
      NothingWaiting("", AllAttempts(a, Mailboxes(a).value));
    }
  }

  lemma RunDummy(a: Account)
    ensures Mailboxes(a).None? ==> Run(a, DUMMY).None?
    ensures Mailboxes(a).Some? ==>
              var rest := Run(a, Checkpoint(true, Mailboxes(a), None));
              Run(a, DUMMY) == if rest.None? then None else Some((1 + rest.value.0, Tag("", []) + rest.value.1))
  {
    hide Tag, Mailboxes;
  }

  // ---------------------------------------------------------------- the documents of a whole run

  /** All that is put out by calling from checkpoint to checkpoint; None if a call raises. */
  function RunDocs(a: Account, start: int, end: int, c: Checkpoint): Option<seq<Doc>>
    decreases if c.todoMailboxes.None? then 1 else 0,
              if c.todoMailboxes.None? then 0 else |c.todoMailboxes.value|,
              if c.current.None? then 0 else |c.current.value.todo|
  {
    var (next, mailbox, ids) := Next(a, c);
    if next.None? then None
    else if !next.value.hasMore then Some(DocsForAll(a, start, end, mailbox, ids))
    else
      var rest := RunDocs(a, start, end, next.value);
      if rest.None? then None else Some(DocsForAll(a, start, end, mailbox, ids) + rest.value)
  }

  function DocsOfAttempts(a: Account, start: int, end: int, attempts: seq<Attempt>): seq<Doc> {
    if attempts == [] then []
    else
      var n := |attempts| - 1;
      DocsOfAttempts(a, start, end, attempts[..n]) + DocsFor(a, start, end, attempts[n].mailbox, attempts[n].id)
  }

  lemma {:induction false} DocsOfTag(a: Account, start: int, end: int, mailbox: string, ids: seq<string>)
    ensures DocsOfAttempts(a, start, end, Tag(mailbox, ids)) == DocsForAll(a, start, end, mailbox, ids)
  {
    hide DocsFor;
    if ids != [] {
      var n := |ids| - 1;
      assert Tag(mailbox, ids)[..n] == Tag(mailbox, ids[..n]);
      DocsOfTag(a, start, end, mailbox, ids[..n]);
    }
  }

  lemma {:induction false} DocsOfConcat(a: Account, start: int, end: int, x: seq<Attempt>, y: seq<Attempt>)
    ensures DocsOfAttempts(a, start, end, x + y) == DocsOfAttempts(a, start, end, x) + DocsOfAttempts(a, start, end, y)
  {
    hide DocsFor;
    if y == [] {
      assert x + y == x;
    } else {
      var n := |y| - 1;
      assert (x + y)[..|x + y| - 1] == x + y[..n];
      DocsOfConcat(a, start, end, x, y[..n]);
    }
  }

  /** The documents are those of the attempts, in order. */
  lemma {:induction false} RunDocsAre(a: Account, start: int, end: int, c: Checkpoint)
    ensures var run := Run(a, c);
            RunDocs(a, start, end, c) == if run.None? then None else Some(DocsOfAttempts(a, start, end, run.value.1))
    decreases if c.todoMailboxes.None? then 1 else 0,
              if c.todoMailboxes.None? then 0 else |c.todoMailboxes.value|,
              if c.current.None? then 0 else |c.current.value.todo|
  {
    hide DocsOfAttempts, DocsForAll, Tag, Mailboxes;
    var (next, mailbox, ids) := Next(a, c);
    DocsOfTag(a, start, end, mailbox, ids);
    if next.Some? && next.value.hasMore {
      RunDocsAre(a, start, end, next.value);
      var rest := Run(a, next.value);
      if rest.Some? {
        DocsOfConcat(a, start, end, Tag(mailbox, ids), rest.value.1);
      }
    }
  }

  /** The message can be fetched and lies in the window. */
  ghost predicate IsShown(a: Account, start: int, end: int, mailbox: string, id: string) {
    (mailbox, id) in a.messages && start < a.messages[(mailbox, id)].date && a.messages[(mailbox, id)].date <= end
  }

  /** How often one attempt puts `o` out. */
  ghost function Times(a: Account, start: int, end: int, o: Doc): nat {
    if !IsShown(a, start, end, o.mailbox, o.id) then 0
    else match o
         case EmailDoc(_, _) => 1
         case AttachmentDoc(mailbox, id, name) => multiset(a.messages[(mailbox, id)].attachments)[name]
  }

  lemma {:induction false} AttachmentCount(mailbox: string, id: string, names: seq<string>, o: Doc)
    ensures multiset(Attachments(mailbox, id, names))[o] ==
            if o.AttachmentDoc? && o.mailbox == mailbox && o.id == id then multiset(names)[o.name] else 0
  {
    if names == [] {
      assert Attachments(mailbox, id, names) == [];
    } else {
      var n := |names| - 1;
      assert names == names[..n] + [names[n]];
      assert Attachments(mailbox, id, names)
          == Attachments(mailbox, id, names[..n]) + [AttachmentDoc(mailbox, id, names[n])];
      AttachmentCount(mailbox, id, names[..n], o);
    }
  }

  lemma OneCount(a: Account, start: int, end: int, at: Attempt, o: Doc)
    ensures multiset(DocsFor(a, start, end, at.mailbox, at.id))[o] ==
            if Attempt(o.mailbox, o.id) == at then Times(a, start, end, o) else 0
  {
    hide Attachments;
    if (at.mailbox, at.id) in a.messages {
      AttachmentCount(at.mailbox, at.id, a.messages[(at.mailbox, at.id)].attachments, o);
    }
  }

  lemma DocsUnfold(a: Account, start: int, end: int, attempts: seq<Attempt>)
    requires attempts != []
    ensures var n := |attempts| - 1;
            DocsOfAttempts(a, start, end, attempts)
            == DocsOfAttempts(a, start, end, attempts[..n]) + DocsFor(a, start, end, attempts[n].mailbox, attempts[n].id)
  {
    hide DocsFor;
  }

  lemma DocsLast(a: Account, start: int, end: int, attempts: seq<Attempt>, o: Doc)
    requires attempts != []
    ensures var n := |attempts| - 1;
            var at := Attempt(o.mailbox, o.id);
            && multiset(DocsOfAttempts(a, start, end, attempts))[o]
               == multiset(DocsOfAttempts(a, start, end, attempts[..n]))[o]
                  + (if attempts[n] == at then Times(a, start, end, o) else 0)
            && multiset(attempts)[at] == multiset(attempts[..n])[at] + (if attempts[n] == at then 1 else 0)
  {
    hide DocsOfAttempts, DocsFor, Times;
    var n := |attempts| - 1;
    OneCount(a, start, end, attempts[n], o);
    DocsUnfold(a, start, end, attempts);
    CountConcat(DocsOfAttempts(a, start, end, attempts[..n]),
                DocsFor(a, start, end, attempts[n].mailbox, attempts[n].id), o);
    CountConcat(attempts[..n], [attempts[n]], Attempt(o.mailbox, o.id));
    assert attempts[..n] + [attempts[n]] == attempts;
  }

  lemma {:induction false} DocCount(a: Account, start: int, end: int, attempts: seq<Attempt>, o: Doc)
    ensures multiset(DocsOfAttempts(a, start, end, attempts))[o]
         == multiset(attempts)[Attempt(o.mailbox, o.id)] * Times(a, start, end, o)
  {
    if attempts != [] {
      hide DocsOfAttempts, DocsFor, Times;
      var n := |attempts| - 1;
      var at := Attempt(o.mailbox, o.id);
      DocCount(a, start, end, attempts[..n], o);
      DocsLast(a, start, end, attempts, o);
      OneTimeMore(multiset(attempts[..n])[at], multiset(attempts)[at], Times(a, start, end, o),
                  multiset(DocsOfAttempts(a, start, end, attempts[..n]))[o],
                  multiset(DocsOfAttempts(a, start, end, attempts))[o]);
    }
  }

  /** The ids a mailbox holds. */
  ghost predicate IsIn(a: Account, mailbox: string, id: string) {
    mailbox in a.ids && id in a.ids[mailbox]
  }

  lemma {:induction false} TagCount(mailbox: string, ids: seq<string>, at: Attempt)
    ensures multiset(Tag(mailbox, ids))[at] == if at.mailbox == mailbox then multiset(ids)[at.id] else 0
  {
    if ids == [] {
      assert Tag(mailbox, ids) == [];
    } else {
      var n := |ids| - 1;
      assert ids == ids[..n] + [ids[n]];
      assert Tag(mailbox, ids) == Tag(mailbox, ids[..n]) + [Attempt(mailbox, ids[n])];
      TagCount(mailbox, ids[..n], at);
    }
  }

  lemma AttemptsUnfold(a: Account, boxes: seq<string>)
    requires boxes != []
    ensures var n := |boxes| - 1;
            AllAttempts(a, boxes) == Tag(boxes[n], IdsIn(a, boxes[n])) + AllAttempts(a, boxes[..n])
  {
  }

  /** How often a mailbox holds an id. */
  ghost function Held(a: Account, at: Attempt): nat {
    if at.mailbox in a.ids then multiset(a.ids[at.mailbox])[at.id] else 0
  }

  lemma AttemptsLast(a: Account, boxes: seq<string>, at: Attempt)
    requires boxes != []
    ensures var n := |boxes| - 1;
            && multiset(AllAttempts(a, boxes))[at]
               == multiset(AllAttempts(a, boxes[..n]))[at] + (if boxes[n] == at.mailbox then Held(a, at) else 0)
            && multiset(boxes)[at.mailbox] == multiset(boxes[..n])[at.mailbox] + (if boxes[n] == at.mailbox then 1 else 0)
  {
    hide AllAttempts, Tag;
    var n := |boxes| - 1;
    AttemptsUnfold(a, boxes);
    TagCount(boxes[n], IdsIn(a, boxes[n]), at);
    CountConcat(Tag(boxes[n], IdsIn(a, boxes[n])), AllAttempts(a, boxes[..n]), at);
    CountConcat(boxes[..n], [boxes[n]], at.mailbox);
    assert boxes[..n] + [boxes[n]] == boxes;
  }

  /** An id is attempted as often as its mailbox is given and holds it. */
  lemma {:induction false} AttemptCount(a: Account, boxes: seq<string>, at: Attempt)
    ensures multiset(AllAttempts(a, boxes))[at] == multiset(boxes)[at.mailbox] * Held(a, at)
  {
    if boxes != [] {
      hide AllAttempts, Held;
      var n := |boxes| - 1;
      AttemptCount(a, boxes[..n], at);
      AttemptsLast(a, boxes, at);
      OneTimeMore(multiset(boxes[..n])[at.mailbox], multiset(boxes)[at.mailbox], Held(a, at),
                  multiset(AllAttempts(a, boxes[..n]))[at], multiset(AllAttempts(a, boxes))[at]);
    }
  }

  /** The mailboxes: the configured names if there are any, else the listed ones; without the empty ones, quoted. */
  lemma MailboxesMeaning(a: Account)
    ensures Mailboxes(a).None? <==> a.configured == [] && a.listed == []
    ensures var names := if a.configured != [] then a.configured else a.listed;
            && (Mailboxes(a).Some? ==>
                  forall m :: m in Mailboxes(a).value <==> exists name :: name in names && name != "" && m == "\"" + name + "\"")
            && (Mailboxes(a).Some? && Distinct(names) ==> Distinct(Mailboxes(a).value))
  {
    var names := if a.configured != [] then a.configured else a.listed;
    var kept := Filter(NonEmpty(), names);
    FilterMembers(NonEmpty(), names);
    hide Filter;
    if Mailboxes(a).Some? {
      var boxes := Mailboxes(a).value;
      forall name | name in names && name != "" ensures "\"" + name + "\"" in boxes {
        assert NonEmpty()(name);
        var i :| 0 <= i < |kept| && kept[i] == name;
        assert boxes[i] == Quote()(name);
      }
      forall m | m in boxes ensures exists name :: name in names && name != "" && m == "\"" + name + "\"" {
        var i :| 0 <= i < |boxes| && boxes[i] == m;
        assert boxes[i] == Quote()(kept[i]) && kept[i] in kept;
      }
      if Distinct(names) {
        FilterDistinct(NonEmpty(), names);
        forall i, j | 0 <= i < j < |boxes| ensures boxes[i] != boxes[j] {
          assert boxes[i] == Quote()(kept[i]) && boxes[j] == Quote()(kept[j]);
          QuoteKeepsApart(kept[i], kept[j]);
        }
      }
    }
  }

  lemma QuoteKeepsApart(a: string, b: string)
    requires a != b
    ensures "\"" + a + "\"" != "\"" + b + "\""
  {
    var x, y := "\"" + a + "\"", "\"" + b + "\"";
    assert x[1..|x| - 1] == a && y[1..|y| - 1] == b;
  }

  /** What a whole run puts out: each message of a mailbox asked for that can be fetched and lies in the window, and
      its attachments; nothing else; and no message twice if no mailbox is asked for twice or holds an id twice. It
      raises exactly if there is no mailbox to ask for. */
  lemma FullRunDocuments(a: Account, start: int, end: int)
    ensures RunDocs(a, start, end, DUMMY).None? <==> a.configured == [] && a.listed == []
    ensures var run := RunDocs(a, start, end, DUMMY);
            var names := if a.configured != [] then a.configured else a.listed;
            run.Some? ==>
              && (forall m, id :: EmailDoc(m, id) in run.value <==>
                    m in Mailboxes(a).value && IsIn(a, m, id) && IsShown(a, start, end, m, id))
              && (forall m, id, name :: AttachmentDoc(m, id, name) in run.value <==>
                    && m in Mailboxes(a).value && IsIn(a, m, id) && IsShown(a, start, end, m, id)
                    && name in a.messages[(m, id)].attachments)
              && (Distinct(names) && (forall m :: m in a.ids ==> Distinct(a.ids[m])) ==>
                    forall m, id :: multiset(run.value)[EmailDoc(m, id)] <= 1)
  {
    hide RunDocs, Run, Mailboxes, DocsOfAttempts, AllAttempts, CallsFor, Times, IsShown;
    MailboxesMeaning(a);
    FullRun(a);
    RunDocsAre(a, start, end, DUMMY);
    if Mailboxes(a).Some? {
      var boxes := Mailboxes(a).value;
      var docs := RunDocs(a, start, end, DUMMY).value;
      assert docs == DocsOfAttempts(a, start, end, AllAttempts(a, boxes));
      forall o: Doc ensures o in docs <==> o.mailbox in boxes && IsIn(a, o.mailbox, o.id) && Times(a, start, end, o) > 0 {
        DocMember(a, start, end, boxes, o);
      }
      forall m, id
        ensures EmailDoc(m, id) in docs <==> m in boxes && IsIn(a, m, id) && IsShown(a, start, end, m, id)
      {
        EmailTimes(a, start, end, m, id);
      }
      ShownExists(a, start, end);
      forall m, id, name
        ensures AttachmentDoc(m, id, name) in docs <==>
                && m in boxes && IsIn(a, m, id) && IsShown(a, start, end, m, id)
                && name in a.messages[(m, id)].attachments
      {
        AttachmentTimes(a, start, end, m, id, name);
      }
      if Distinct(boxes) && forall m :: m in a.ids ==> Distinct(a.ids[m]) {
        forall m, id ensures multiset(docs)[EmailDoc(m, id)] <= 1 {
          EmailOnce(a, start, end, boxes, m, id);
        }
      }
    }
  }

  lemma ShownExists(a: Account, start: int, end: int)
    ensures forall m, id :: IsShown(a, start, end, m, id) ==> (m, id) in a.messages
  {
  }

  lemma EmailTimes(a: Account, start: int, end: int, m: string, id: string)
    ensures Times(a, start, end, EmailDoc(m, id)) == if IsShown(a, start, end, m, id) then 1 else 0
  {
  }

  lemma AttachmentTimes(a: Account, start: int, end: int, m: string, id: string, name: string)
    ensures Times(a, start, end, AttachmentDoc(m, id, name)) > 0 <==>
            IsShown(a, start, end, m, id) && name in a.messages[(m, id)].attachments
  {
    if IsShown(a, start, end, m, id) {
      CountIn(a.messages[(m, id)].attachments, name);
    }
  }

  lemma DocMember(a: Account, start: int, end: int, boxes: seq<string>, o: Doc)
    ensures o in DocsOfAttempts(a, start, end, AllAttempts(a, boxes)) <==>
            o.mailbox in boxes && IsIn(a, o.mailbox, o.id) && Times(a, start, end, o) > 0
  {
    hide DocsOfAttempts, AllAttempts, Times;
    var attempts := AllAttempts(a, boxes);
    var at := Attempt(o.mailbox, o.id);
    DocCount(a, start, end, attempts, o);
    AttemptCount(a, boxes, at);
    CountIn(DocsOfAttempts(a, start, end, attempts), o);
    CountIn(boxes, o.mailbox);
    ProductPositive(multiset(attempts)[at], Times(a, start, end, o));
    ProductPositive(multiset(boxes)[o.mailbox], Held(a, at));
    if o.mailbox in a.ids {
      CountIn(a.ids[o.mailbox], o.id);
    }
  }

  lemma EmailOnce(a: Account, start: int, end: int, boxes: seq<string>, m: string, id: string)
    requires Distinct(boxes) && (m in a.ids ==> Distinct(a.ids[m]))
    ensures multiset(DocsOfAttempts(a, start, end, AllAttempts(a, boxes)))[EmailDoc(m, id)] <= 1
  {
    hide DocsOfAttempts, AllAttempts, IsShown;
    var attempts := AllAttempts(a, boxes);
    DocCount(a, start, end, attempts, EmailDoc(m, id));
    AttemptCount(a, boxes, Attempt(m, id));
    DistinctCount(boxes, m);
    if m in a.ids {
      DistinctCount(a.ids[m], id);
    }
    AtMostOne(multiset(boxes)[m], Held(a, Attempt(m, id)));
    AtMostOne(multiset(attempts)[Attempt(m, id)], Times(a, start, end, EmailDoc(m, id)));
  }
}
