/** Delivering messages over the bus: what is refused before anything is sent, and where
    what is sent can land. */
module Delivery {
  import opened Basics
  import opened Subjects

  /** An empty recipient leaves the message on its channel. */
  datatype Message = Message(id: string, from: string, to: string, kind: string, address: string, wantsReply: bool)

  datatype Rule = Rule(durable: bool, stream: string)

  datatype Sent = Sent(subject: string, message: Message)

  datatype Receipt = NoClient | Refused | Delivered(subject: string, durable: bool, stream: string, answered: bool)

  /** To the recipient, or to the channel. */
  function SubjectFor(ns: Namespace, m: Message): string
  {
    if m.to != "" then Agent(ns, m.to) else Channel(ns, m.kind, m.address)
  }

  function StreamName(ns: Namespace, rule: Rule, channel: string): string
  {
    if rule.stream != "" then rule.stream else Token(ns.tenant, ns.alnum) + "-" + Token(channel, ns.alnum)
  }

  class Adapter {
    const ns: Namespace
    const rules: map<string, Rule>
    const mayReach: Option<(string, string) -> bool>
    var connected: bool
    var sent: seq<Sent>

    /** Nothing addressed was ever sent to somebody the chart refuses, and each went to
        the subject that is its own. */
    ghost predicate Valid()
      reads this
    {
      forall i :: 0 <= i < |sent| ==> Allowed(sent[i])
    }

    ghost predicate Allowed(s: Sent)
    {
      s.subject == SubjectFor(ns, s.message)
      && (s.message.to != "" && mayReach.Some? ==> mayReach.value(s.message.from, s.message.to))
    }

    constructor (ns: Namespace, rules: map<string, Rule>, mayReach: Option<(string, string) -> bool>, connected: bool)
      ensures Valid() && sent == [] && this.ns == ns && this.rules == rules
      ensures this.mayReach == mayReach && this.connected == connected
    {
      this.ns, this.rules, this.mayReach, this.connected, sent := ns, rules, mayReach, connected, [];
    }

    method Deliver(m: Message, channel: string) returns (r: Receipt)
      requires Valid()
      modifies `sent
      ensures Valid()
      ensures r == NoClient <==> !connected
      ensures r == Refused <==> connected && m.to != "" && mayReach.Some? && !mayReach.value(m.from, m.to)
      ensures !r.Delivered? ==> sent == old(sent)
      ensures r.Delivered? ==>
                && sent == old(sent) + [Sent(SubjectFor(ns, m), m)]
                && r.subject == SubjectFor(ns, m)
                && r.answered == m.wantsReply
                && r.durable == (channel in rules && rules[channel].durable)
                && r.stream == (if !r.durable then ""
                                else if rules[channel].stream != "" then rules[channel].stream
                                else Token(ns.tenant, ns.alnum) + "-" + Token(channel, ns.alnum))
    {
      if !connected {
        return NoClient;
      }
      if m.to != "" && mayReach.Some? {
        if !mayReach.value(m.from, m.to) {
          return Refused;
        }
      }
      var subject := SubjectFor(ns, m);
      var durable := channel in rules && rules[channel].durable;
      var stream := if durable then StreamName(ns, rules[channel], channel) else "";
      sent := sent + [Sent(subject, m)];
      return Delivered(subject, durable, stream, m.wantsReply);
    }
  }

  /** What is sent this way never lands in any agent's mailbox, addressed or not, and the
      wildcard of a tenant takes it exactly when it is that tenant's token, or name alike. */
  lemma DeliveriesMissMailboxes(ns: Namespace, other: Namespace, m: Message, id: string)
    requires Valid(ns) && Valid(other) && ns.root == other.root
    ensures !Selects(Mailbox(other, id), SubjectFor(ns, m))
    ensures Selects(Wildcard(other), SubjectFor(ns, m)) <==>
              Token(other.tenant, other.alnum) == Token(ns.tenant, ns.alnum)
    ensures ns.alnum == other.alnum ==>
              (Selects(Wildcard(other), SubjectFor(ns, m)) <==> Alike(other.tenant, ns.tenant, ns.alnum))
  {
    hide Alike;
    if m.to != "" {
      MailboxTakesNothingElse(other, id, ns, "", m.to);
      AgentReads(ns, m.to);
      TenantsAreIsolatedExactly(other, ns, Agent(ns, m.to),
        [ns.root, Token(ns.tenant, ns.alnum), "agent", Token(m.to, ns.alnum)]);
    } else {
      MailboxTakesNothingElse(other, id, ns, m.kind, m.address);
      ChannelReads(ns, m.kind, m.address);
      TenantsAreIsolatedExactly(other, ns, Channel(ns, m.kind, m.address), ChannelTokens(ns, m.kind, m.address));
    }
  }

  /** An addressed message goes to a subject whose last token is its recipient's, and one
      that names nobody to its channel's, whoever sent it. */
  lemma RecipientNamesTheSubject(ns: Namespace, m: Message)
    requires Valid(ns)
    ensures m.to != "" ==>
              Reads(SubjectFor(ns, m), [ns.root, Token(ns.tenant, ns.alnum), "agent", Token(m.to, ns.alnum)])
    ensures m.to == "" && m.address == "" ==>
              Reads(SubjectFor(ns, m), [ns.root, Token(ns.tenant, ns.alnum), "channel", Token(m.kind, ns.alnum)])
    ensures m.to == "" && m.address != "" ==>
              Reads(SubjectFor(ns, m),
                    [ns.root, Token(ns.tenant, ns.alnum), "channel", Token(m.kind, ns.alnum),
                     Token(m.address, ns.alnum)])
  {
    hide Reads, Token;
    if m.to != "" {
      AgentReads(ns, m.to);
    } else {
      ChannelReads(ns, m.kind, m.address);
      ChannelTokensAre(ns, m.kind, m.address);
    }
  }

  lemma ChannelTokensAre(ns: Namespace, kind: string, address: string)
    ensures ChannelTokens(ns, kind, address)
            == if address == "" then [ns.root, Token(ns.tenant, ns.alnum), "channel", Token(kind, ns.alnum)]
               else [ns.root, Token(ns.tenant, ns.alnum), "channel", Token(kind, ns.alnum), Token(address, ns.alnum)]
  {
  }
}
