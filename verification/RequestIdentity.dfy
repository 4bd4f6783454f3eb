/** Request identities: sequence numbers that are never drawn twice, and framings that lose nothing. */
module RequestIdentity {

  import opened Wrappers
  import Text

  const USIZE_MAX: nat := Text.U64_MAX

  // ---------------------------------------------------------------- request ids

  datatype Transport = Sdk | Cli | Http | Wss | Mcp | A2a

  function TransportLabel(t: Transport): string {
    match t
    case Sdk => "sdk" case Cli => "cli" case Http => "http"
    case Wss => "wss" case Mcp => "mcp" case A2a => "a2a"
  }

  /** What a request id is made of. */
  datatype Ticket = Ticket(transport: Transport, owner: nat, request: nat)

  function RequestId(t: Ticket): string {
    TransportLabel(t.transport) + "-request-" + Text.Decimal(t.owner) + "-" + Text.Decimal(t.request)
  }

  lemma LastDash(a: string, x: string, b: string, y: string)
    requires Text.AllDigits(x) && Text.AllDigits(y) && a + "-" + x == b + "-" + y
    ensures a == b && x == y
  {
    var s, t := a + "-" + x, b + "-" + y;
    assert s[|a|] == '-' && t[|b|] == '-';
    assert |a| == |b|;
    assert s[..|a|] == a && t[..|b|] == b && s[|a| + 1..] == x && t[|b| + 1..] == y;
  }

  lemma DecimalInjective(m: nat, n: nat)
    ensures Text.Decimal(m) == Text.Decimal(n) ==> m == n
  {
    Text.DecimalValue(m);
    Text.DecimalValue(n);
  }

  lemma LabelInjective(t: Transport, u: Transport)
    requires TransportLabel(t) + "-request" == TransportLabel(u) + "-request"
    ensures t == u
  {
    var a, b := TransportLabel(t), TransportLabel(u);
    assert |a| == |b| && (a + "-request")[..|a|] == a && (b + "-request")[..|b|] == b;
    assert a[0] == b[0] && a[1] == b[1];
  }

  /** Transport, owner and request number can be read back from an id. */
  lemma RequestIdInjective(t: Ticket, u: Ticket)
    requires RequestId(t) == RequestId(u)
    ensures t == u
  {
    var a, b := TransportLabel(t.transport) + "-request", TransportLabel(u.transport) + "-request";
    var x, y := Text.Decimal(t.owner), Text.Decimal(u.owner);
    assert RequestId(t) == (a + "-" + x) + "-" + Text.Decimal(t.request);
    assert RequestId(u) == (b + "-" + y) + "-" + Text.Decimal(u.request);
    LastDash(a + "-" + x, Text.Decimal(t.request), b + "-" + y, Text.Decimal(u.request));
    LastDash(a, x, b, y);
    LabelInjective(t.transport, u.transport);
    DecimalInjective(t.owner, u.owner);
    DecimalInjective(t.request, u.request);
  }

  // ---------------------------------------------------------------- issuing

  datatype Error = EmptySourceId | EmptyPrincipal | EmptyExplicitKey | SequenceExhausted

  datatype Owner = Owner(transport: Transport, source: string, principal: string, sequence: nat, nextRequest: nat)

  /** Every owner of the process, by handle; `issued` is the history of drawn request numbers. */
  datatype Process = Process(nextOwner: nat, owners: map<nat, Owner>, issued: seq<Ticket>)

  datatype Step =
    | Create(handle: nat, transport: Transport, source: string, principal: string)
    | Issue(handle: nat, key: Option<string>)

  ghost predicate Enabled(p: Process, step: Step) {
    match step
    case Create(h, _, _, _) => h !in p.owners
    case Issue(h, _) => h in p.owners
  }

  /** The drawn number, unless the counter cannot advance past it. */
  function NextSequence(counter: nat): Option<nat> {
    if counter + 1 <= USIZE_MAX then Some(counter) else None
  }

  function Advance(counter: nat): nat {
    if NextSequence(counter).Some? then counter + 1 else counter
  }

  /** The ticket drawn for a call, before the explicit key is looked at. */
  function Draw(o: Owner): Result<Ticket, Error> {
    if Text.Trim(o.source) == "" then Err(EmptySourceId)
    else if Text.Trim(o.principal) == "" then Err(EmptyPrincipal)
    else if o.sequence == USIZE_MAX then Err(SequenceExhausted)
    else
      match NextSequence(o.nextRequest)
      case None => Err(SequenceExhausted)
      case Some(n) => Ok(Ticket(o.transport, o.sequence, n))
  }

  /** What `issue` answers: a blank explicit key is refused after the number is drawn. */
  function Answer(o: Owner, key: Option<string>): Result<string, Error> {
    var ticket :- Draw(o);
    if key.Some? && Text.Trim(key.value) == "" then Err(EmptyExplicitKey) else Ok(RequestId(ticket))
  }

  predicate AllWhite(text: string) {
    forall i | 0 <= i < |text| :: Text.IsWhitespace(text[i])
  }

  /** A call is answered exactly if source and principal have a name, no counter is exhausted and an explicit key is not
      blank; each refusal has its own reason, in that order. */
  lemma AnswersExactly(o: Owner, key: Option<string>)
    ensures var named, left := !AllWhite(o.source) && !AllWhite(o.principal),
                               o.sequence != USIZE_MAX && o.nextRequest < USIZE_MAX;
      && (Answer(o, key) == Err(EmptySourceId) <==> AllWhite(o.source))
      && (Answer(o, key) == Err(EmptyPrincipal) <==> !AllWhite(o.source) && AllWhite(o.principal))
      && (Answer(o, key) == Err(SequenceExhausted) <==> named && !left)
      && (Answer(o, key) == Err(EmptyExplicitKey) <==> named && left && key.Some? && AllWhite(key.value))
      && (Answer(o, key).Ok? <==> named && left && (key.None? || !AllWhite(key.value)))
      && (Answer(o, key).Ok? ==> Answer(o, key).value == RequestId(Ticket(o.transport, o.sequence, o.nextRequest)))
  {
    Text.TrimBlank(o.source);
    Text.TrimBlank(o.principal);
    if key.Some? {
      Text.TrimBlank(key.value);
    }
  }

  ghost function Apply(p: Process, step: Step): Process
    requires Enabled(p, step)
  {
    match step
    case Create(h, transport, source, principal) =>
      var drawn := NextSequence(p.nextOwner);
      p.(nextOwner := Advance(p.nextOwner),
         owners := p.owners[h := Owner(transport, source, principal,
                                        if drawn.Some? then drawn.value else USIZE_MAX, 1)])
    case Issue(h, _) =>
      var o := p.owners[h];
      if Draw(o).Err? then p
      else p.(owners := p.owners[h := o.(nextRequest := Advance(o.nextRequest))], issued := p.issued + [Draw(o).value])
  }

  ghost predicate IsRun(run: seq<Process>, steps: seq<Step>) {
    && |run| == |steps| + 1
    && run[0] == Process(1, map[], [])
    && (forall i {:trigger steps[i]} :: 0 <= i < |steps| ==>
          Enabled(run[i], steps[i]) && run[i + 1] == Apply(run[i], steps[i]))
  }

  ghost predicate OwnersSound(nextOwner: nat, owners: map<nat, Owner>) {
    && nextOwner <= USIZE_MAX
    && (forall h | h in owners :: owners[h].sequence < nextOwner || owners[h].sequence == USIZE_MAX)
    && (forall h, k | h in owners && k in owners && owners[h].sequence == owners[k].sequence < USIZE_MAX :: h == k)
  }

  predicate DrawnFrom(o: Owner, t: Ticket) {
    o.sequence == t.owner < USIZE_MAX && t.request < o.nextRequest
  }

  ghost predicate TicketsSound(owners: map<nat, Owner>, issued: seq<Ticket>) {
    && (forall t | t in issued :: exists h :: h in owners && DrawnFrom(owners[h], t))
    && (forall i, j | 0 <= i < j < |issued| ::
          issued[i].owner != issued[j].owner || issued[i].request != issued[j].request)
  }

  ghost predicate Inv(p: Process) {
    OwnersSound(p.nextOwner, p.owners) && TicketsSound(p.owners, p.issued)
  }

  lemma OwnersGrow(owners: map<nat, Owner>, owners': map<nat, Owner>, issued: seq<Ticket>)
    requires TicketsSound(owners, issued)
    requires forall h | h in owners ::
      h in owners' && owners'[h].sequence == owners[h].sequence
      && owners[h].nextRequest <= owners'[h].nextRequest
    ensures TicketsSound(owners', issued)
  {
    forall t | t in issued ensures exists h :: h in owners' && DrawnFrom(owners'[h], t) {
      var h :| h in owners && DrawnFrom(owners[h], t);
      assert DrawnFrom(owners'[h], t);
    }
  }

  lemma IssueKeeps(p: Process, h: nat)
    requires Inv(p) && h in p.owners && Draw(p.owners[h]).Ok?
    ensures TicketsSound(p.owners[h := p.owners[h].(nextRequest := Advance(p.owners[h].nextRequest))],
                         p.issued + [Draw(p.owners[h]).value])
  {
    var o, ticket := p.owners[h], Draw(p.owners[h]).value;
    var owners', issued' := p.owners[h := o.(nextRequest := Advance(o.nextRequest))], p.issued + [ticket];
    OwnersGrow(p.owners, owners', p.issued);
    assert DrawnFrom(owners'[h], ticket);
    forall i | 0 <= i < |p.issued| ensures p.issued[i].owner != ticket.owner || p.issued[i].request != ticket.request {
      assert p.issued[i] in p.issued;
      var k :| k in p.owners && DrawnFrom(p.owners[k], p.issued[i]);
    }
  }

  lemma InvStep(p: Process, step: Step)
    requires Inv(p) && Enabled(p, step)
    ensures Inv(Apply(p, step))
  {
    match step
    case Create(h, _, _, _) => OwnersGrow(p.owners, Apply(p, step).owners, p.issued);
    case Issue(h, _) =>
      if Draw(p.owners[h]).Ok? {
        IssueKeeps(p, h);
      }
  }

  lemma {:induction false} InvAlways(run: seq<Process>, steps: seq<Step>, i: nat)
    requires IsRun(run, steps) && i < |run|
    ensures Inv(run[i])
  {
    if i > 0 {
      InvAlways(run, steps, i - 1);
      InvStep(run[i - 1], steps[i - 1]);
    }
  }

  lemma IssuedStep(p: Process, step: Step)
    requires Enabled(p, step)
    ensures p.issued <= Apply(p, step).issued
  {
  }

  lemma {:induction false} IssuedGrows(run: seq<Process>, steps: seq<Step>, i: nat, j: nat)
    requires IsRun(run, steps) && i <= j < |run|
    ensures run[i].issued <= run[j].issued
  {
    if i < j {
      IssuedGrows(run, steps, i, j - 1);
      IssuedStep(run[j - 1], steps[j - 1]);
    }
  }

  /** An answered call has drawn the next ticket, and answers its id. */
  lemma AnswerIsIssued(p: Process, h: nat, key: Option<string>)
    requires h in p.owners && Answer(p.owners[h], key).Ok?
    ensures var issued := Apply(p, Issue(h, key)).issued;
      |issued| == |p.issued| + 1 && Answer(p.owners[h], key).value == RequestId(issued[|p.issued|])
  {
  }

  /** No two calls of a process are ever answered with the same request id, whichever owners answer them,
      in whatever order. */
  lemma RequestIdsAreDistinct(run: seq<Process>, steps: seq<Step>, i: nat, j: nat)
    requires IsRun(run, steps) && i < j < |steps| && steps[i].Issue? && steps[j].Issue?
    requires Answer(run[i].owners[steps[i].handle], steps[i].key).Ok?
      && Answer(run[j].owners[steps[j].handle], steps[j].key).Ok?
    ensures Answer(run[i].owners[steps[i].handle], steps[i].key) != Answer(run[j].owners[steps[j].handle], steps[j].key)
  {
    AnswerIsIssued(run[i], steps[i].handle, steps[i].key);
    AnswerIsIssued(run[j], steps[j].handle, steps[j].key);
    IssuedGrows(run, steps, i + 1, j);
    InvAlways(run, steps, j + 1);
    var issued, a, b := run[j + 1].issued, |run[i].issued|, |run[j].issued|;
    assert issued[a] == run[i + 1].issued[a];
    if RequestId(issued[a]) == RequestId(issued[b]) {
      RequestIdInjective(issued[a], issued[b]);
    }
  }

  // ---------------------------------------------------------------- framing

  type Byte = Text.Byte

  const U64_SIZE: nat := 0x1_0000_0000_0000_0000

  /** The `width` low bytes of a number, most significant first. */
  function BigEndian(n: nat, width: nat): (s: seq<Byte>)
    ensures |s| == width
  {
    if width == 0 then [] else BigEndian(n / 256, width - 1) + [n % 256]
  }

  function Pow256(k: nat): nat {
    if k == 0 then 1 else 256 * Pow256(k - 1)
  }

  lemma {:induction false} BigEndianInjective(m: nat, n: nat, width: nat)
    requires m < Pow256(width) && n < Pow256(width) && BigEndian(m, width) == BigEndian(n, width)
    ensures m == n
  {
    if width > 0 {
      var s, t := BigEndian(m, width), BigEndian(n, width);
      assert s[..width - 1] == BigEndian(m / 256, width - 1) && t[..width - 1] == BigEndian(n / 256, width - 1);
      assert s[width - 1] == m % 256 && t[width - 1] == n % 256;
      BigEndianInjective(m / 256, n / 256, width - 1);
    }
  }

  lemma EightBytes()
    ensures Pow256(8) == U64_SIZE
  {
    assert Pow256(2) == 65536;
    assert Pow256(4) == 65536 * Pow256(2);
    assert Pow256(6) == 65536 * Pow256(4);
    assert Pow256(8) == 65536 * Pow256(6);
  }

  function Framed(field: seq<Byte>): seq<Byte> {
    BigEndian(|field|, 8) + field
  }

  function Frames(fields: seq<seq<Byte>>): seq<Byte> {
    if fields == [] then [] else Framed(fields[0]) + Frames(fields[1..])
  }

  ghost predicate Sized(fields: seq<seq<Byte>>) {
    forall f | f in fields :: |f| < U64_SIZE
  }

  lemma FramedPrefix(a: seq<Byte>, rest: seq<Byte>, b: seq<Byte>, rest': seq<Byte>)
    requires |a| < U64_SIZE && |b| < U64_SIZE && Framed(a) + rest == Framed(b) + rest'
    ensures a == b && rest == rest'
  {
    var s, t := Framed(a) + rest, Framed(b) + rest';
    assert s[..8] == BigEndian(|a|, 8) && t[..8] == BigEndian(|b|, 8);
    EightBytes();
    BigEndianInjective(|a|, |b|, 8);
    assert s[8..8 + |a|] == a && t[8..8 + |b|] == b;
    assert s[8 + |a|..] == rest && t[8 + |b|..] == rest';
  }

  /** The framing determines the fields, their number and their order. */
  lemma {:induction false} FramesInjective(a: seq<seq<Byte>>, b: seq<seq<Byte>>)
    requires Sized(a) && Sized(b) && Frames(a) == Frames(b)
    ensures a == b
  {
    if a != [] && b != [] {
      FramedPrefix(a[0], Frames(a[1..]), b[0], Frames(b[1..]));
      FramesInjective(a[1..], b[1..]);
      assert a == [a[0]] + a[1..] && b == [b[0]] + b[1..];
    }
  }

  lemma FramesAt(material: seq<Byte>, all: seq<seq<Byte>>, i: nat)
    requires i < |all| && material + Frames(all[i..]) == Frames(all)
    ensures material + Framed(all[i]) + Frames(all[i + 1..]) == Frames(all)
  {
    assert all[i..][1..] == all[i + 1..];
    assert material + (Framed(all[i]) + Frames(all[i + 1..])) == material + Framed(all[i]) + Frames(all[i + 1..]);
  }

  /** What the derived idempotency key hashes: the domain, the mode and the fields, each framed. */
  method KeyMaterial(domain: seq<Byte>, mode: seq<Byte>, fields: seq<seq<Byte>>) returns (material: seq<Byte>)
    ensures material == Frames([domain, mode] + fields)
  {
    var all := [domain, mode] + fields;
    material := [];
    for i := 0 to |all|
      invariant material + Frames(all[i..]) == Frames(all)
    {
      FramesAt(material, all, i);
      material := material + (BigEndian(|all[i]|, 8) + all[i]);
    }
  }

  lemma KeyMaterialInjective(domain: seq<Byte>, mode: seq<Byte>, fields: seq<seq<Byte>>, mode': seq<Byte>,
                             fields': seq<seq<Byte>>)
    requires Sized([domain, mode] + fields) && Sized([domain, mode'] + fields')
    requires Frames([domain, mode] + fields) == Frames([domain, mode'] + fields')
    ensures mode == mode' && fields == fields'
  {
    FramesInjective([domain, mode] + fields, [domain, mode'] + fields');
    assert ([domain, mode] + fields)[1] == mode && ([domain, mode'] + fields')[1] == mode';
    assert ([domain, mode] + fields)[2..] == fields && ([domain, mode'] + fields')[2..] == fields';
  }

  function OperationMaterial(domain: seq<Byte>, operation: seq<Byte>, payload: seq<Byte>): seq<Byte> {
    domain + BigEndian(|operation|, 8) + operation + BigEndian(|payload|, 8) + payload
  }

  /** The fingerprint material determines the operation and its payload. */
  lemma OperationMaterialInjective(domain: seq<Byte>, operation: seq<Byte>, payload: seq<Byte>, operation': seq<Byte>,
                                   payload': seq<Byte>)
    requires |operation| < U64_SIZE && |payload| < U64_SIZE && |operation'| < U64_SIZE && |payload'| < U64_SIZE
    requires OperationMaterial(domain, operation, payload) == OperationMaterial(domain, operation', payload')
    ensures operation == operation' && payload == payload'
  {
    var s, t := OperationMaterial(domain, operation, payload), OperationMaterial(domain, operation', payload');
    assert s[|domain|..] == Framed(operation) + Framed(payload)
      && t[|domain|..] == Framed(operation') + Framed(payload');
    FramedPrefix(operation, Framed(payload), operation', Framed(payload'));
    assert Framed(payload) + [] == Framed(payload) && Framed(payload') + [] == Framed(payload');
    FramedPrefix(payload, [], payload', []);
  }
}
