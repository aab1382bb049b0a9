/** The message bus's subjects: dotted names built from sanitised tokens, the wildcards
    that match them, and who a delivery may reach. `alnum` stands for Python's
    `str.isalnum` on one character. */
module Subjects {
  import opened Text

  type Alnum = char -> bool

  /** The characters a subject reserves are not letters or digits; the small Latin letters
      are letters. */
  ghost predicate Proper(alnum: Alnum)
  {
    !alnum('.') && !alnum(' ') && !alnum('*') && !alnum('>') && forall c :: 'a' <= c <= 'z' ==> alnum(c)
  }

  function Clean(value: string, alnum: Alnum): (r: string)
    ensures |r| == |value|
    ensures forall i :: 0 <= i < |value| ==>
              r[i] == if alnum(value[i]) || value[i] == '-' || value[i] == '_' then value[i] else '-'
  {
    seq(|value|, i requires 0 <= i < |value| =>
      if alnum(value[i]) || value[i] == '-' || value[i] == '_' then value[i] else '-')
  }

  function Token(value: string, alnum: Alnum): string
  {
    if value == "" then "unknown" else Clean(value, alnum)
  }

  /** A token is one token: never empty, and free of what a subject reserves. */
  lemma TokenIsOne(value: string, alnum: Alnum)
    requires Proper(alnum)
    ensures var t := Token(value, alnum); t != "" && '.' !in t && ' ' !in t && '*' !in t && '>' !in t
  {
  }

  /** A character that comes out as a hyphen: a hyphen, or what a token cannot hold. */
  predicate Hyphened(c: char, alnum: Alnum)
  {
    c == '-' || (!alnum(c) && c != '_')
  }

  function Read(name: string): string
  {
    if name == "" then "unknown" else name
  }

  /** Two names alike to the bus: an empty one reads as `unknown`, and they agree except
      where both have something that comes out as a hyphen. */
  predicate Alike(a: string, b: string, alnum: Alnum)
  {
    && |Read(a)| == |Read(b)|
    && forall i :: 0 <= i < |Read(a)| ==>
         Read(a)[i] == Read(b)[i] || (Hyphened(Read(a)[i], alnum) && Hyphened(Read(b)[i], alnum))
  }

  lemma TokenAt(name: string, alnum: Alnum, i: nat)
    requires Proper(alnum) && i < |Read(name)|
    ensures |Token(name, alnum)| == |Read(name)|
    ensures Token(name, alnum)[i] == if Hyphened(Read(name)[i], alnum) then '-' else Read(name)[i]
  {
    if name == "" {
      assert 'a' <= "unknown"[i] <= 'z';
    }
  }

  /** Two names share a token exactly when they are alike. */
  lemma TokensEqualExactly(a: string, b: string, alnum: Alnum)
    requires Proper(alnum)
    ensures Token(a, alnum) == Token(b, alnum) <==> Alike(a, b, alnum)
  {
    hide Token, Read, Proper;
    TokenLength(a, alnum);
    TokenLength(b, alnum);
    forall i | 0 <= i < |Read(a)| && |Read(a)| == |Read(b)|
      ensures Token(a, alnum)[i] == Token(b, alnum)[i]
              <==> Read(a)[i] == Read(b)[i] || (Hyphened(Read(a)[i], alnum) && Hyphened(Read(b)[i], alnum))
    {
      TokenAt(a, alnum, i);
      TokenAt(b, alnum, i);
    }
  }

  lemma TokenLength(name: string, alnum: Alnum)
    ensures |Token(name, alnum)| == |Read(name)|
  {
  }

  /** So of names with only letters, digits, hyphens and underscores no two share one. */
  lemma UsableNamesKeepApart(a: string, b: string, alnum: Alnum)
    requires a != "" && b != ""
    requires forall c :: c in a || c in b ==> c == '-' || !Hyphened(c, alnum)
    ensures Token(a, alnum) == Token(b, alnum) <==> a == b
  {
    forall i | 0 <= i < |a| ensures Clean(a, alnum)[i] == a[i] { assert a[i] in a; }
    forall i | 0 <= i < |b| ensures Clean(b, alnum)[i] == b[i] { assert b[i] in b; }
  }

  /** Others may: a dot, a blank and a hyphen are alike, and so are nothing and `unknown`. */
  lemma NamesMayCollide(a: string, b: string, alnum: Alnum)
    requires Proper(alnum)
    ensures Token(a + "." + b, alnum) == Token(a + " " + b, alnum) == Token(a + "-" + b, alnum)
    ensures Token("", alnum) == Token("unknown", alnum)
  {
    TokensEqualExactly(a + "." + b, a + " " + b, alnum);
    TokensEqualExactly(a + " " + b, a + "-" + b, alnum);
    TokensEqualExactly("", "unknown", alnum);
  }

  /** A name shares its token with no other exactly when it is not empty, not `unknown`,
      and has nothing in it that comes out as a hyphen. */
  lemma NameKeepsApartExactly(a: string, alnum: Alnum)
    requires Proper(alnum)
    ensures (forall b :: Token(a, alnum) == Token(b, alnum) ==> a == b)
            <==> a != "" && a != "unknown" && forall c :: c in a ==> !Hyphened(c, alnum)
  {
    hide Token, Proper;
    if a != "" && a != "unknown" && forall c :: c in a ==> !Hyphened(c, alnum) {
      forall b | Token(a, alnum) == Token(b, alnum) ensures a == b {
        TokensEqualExactly(a, b, alnum);
        assert Read(b) == a;
      }
    } else {
      var b := Double(a, alnum);
      TokensEqualExactly(a, b, alnum);
    }
  }

  /** Another name with the same token. */
  lemma Double(a: string, alnum: Alnum) returns (b: string)
    requires Proper(alnum)
    requires a == "" || a == "unknown" || exists c :: c in a && Hyphened(c, alnum)
    ensures a != b && Alike(a, b, alnum)
  {
    if a == "" {
      b := "unknown";
    } else if a == "unknown" {
      b := "";
    } else {
      var i :| 0 <= i < |a| && Hyphened(a[i], alnum);
      b := a[i := if a[i] == '.' then '-' else '.'];
      assert a[i] == '-' || !alnum(a[i]);
    }
  }

  /** One tenant's names. The root is a fixed name of one token. */
  datatype Namespace = Namespace(tenant: string, root: string, alnum: Alnum)

  ghost predicate Valid(ns: Namespace)
  {
    Proper(ns.alnum) && ns.root != "" && '.' !in ns.root && ns.root != "*" && ns.root != ">"
  }

  function Prefix(ns: Namespace): string
  {
    ns.root + "." + Token(ns.tenant, ns.alnum)
  }

  function Agent(ns: Namespace, id: string): string
  {
    Prefix(ns) + "." + "agent" + "." + Token(id, ns.alnum)
  }

  function Channel(ns: Namespace, kind: string, address: string): string
  {
    Prefix(ns) + "." + "channel" + "." + Token(kind, ns.alnum)
    + if address != "" then "." + Token(address, ns.alnum) else ""
  }

  function Inbox(ns: Namespace, to: string, from: string): string
  {
    Agent(ns, to) + "." + "inbox" + "." + Token(from, ns.alnum)
  }

  function Reply(ns: Namespace, to: string, from: string): string
  {
    Agent(ns, to) + "." + "reply" + "." + Token(from, ns.alnum)
  }

  function Wildcard(ns: Namespace): string
  {
    Prefix(ns) + "." + ">"
  }

  function Mailbox(ns: Namespace, id: string): string
  {
    Agent(ns, id) + "." + ">"
  }

  function AgentsWildcard(ns: Namespace): string
  {
    Prefix(ns) + "." + "agent" + "." + ">"
  }

  // ---- subjects as the tokens they are made of ---------------------------------------

  predicate NoDots(tokens: seq<string>)
  {
    tokens != [] && forall t :: t in tokens ==> '.' !in t
  }

  /** One more token. */
  lemma {:induction false} Extend(s: string, tokens: seq<string>, t: string)
    requires NoDots(tokens) && s == Join(tokens, ".") && '.' !in t
    ensures NoDots(tokens + [t]) && s + "." + t == Join(tokens + [t], ".")
    decreases |tokens|
  {
    if |tokens| > 1 {
      Extend(Join(tokens[1..], "."), tokens[1..], t);
      assert (tokens + [t])[1..] == tokens[1..] + [t];
      assert tokens[0] + "." + Join(tokens[1..], ".") + "." + t == tokens[0] + "." + (Join(tokens[1..], ".") + "." + t);
    } else {
      assert (tokens + [t])[1..] == [t];
    }
  }

  /** A subject reads as its tokens. */
  ghost predicate Reads(s: string, tokens: seq<string>)
  {
    NoDots(tokens) && s == Join(tokens, ".") && Split(s, '.') == tokens
  }

  lemma ReadsOneMore(s: string, tokens: seq<string>, t: string)
    requires Reads(s, tokens) && '.' !in t
    ensures Reads(s + "." + t, tokens + [t])
  {
    Extend(s, tokens, t);
    SplitJoin(tokens + [t], '.');
  }

  lemma PrefixReads(ns: Namespace)
    requires Valid(ns)
    ensures Reads(Prefix(ns), [ns.root, Token(ns.tenant, ns.alnum)])
  {
    TokenIsOne(ns.tenant, ns.alnum);
    SplitWhole(ns.root, '.');
    ReadsOneMore(ns.root, [ns.root], Token(ns.tenant, ns.alnum));
    assert [ns.root] + [Token(ns.tenant, ns.alnum)] == [ns.root, Token(ns.tenant, ns.alnum)];
  }

  lemma AgentReads(ns: Namespace, id: string)
    requires Valid(ns)
    ensures Reads(Agent(ns, id), [ns.root, Token(ns.tenant, ns.alnum), "agent", Token(id, ns.alnum)])
  {
    hide Split, Join;
    var p := [ns.root, Token(ns.tenant, ns.alnum)];
    PrefixReads(ns);
    TokenIsOne(id, ns.alnum);
    ReadsOneMore(Prefix(ns), p, "agent");
    ReadsOneMore(Prefix(ns) + "." + "agent", p + ["agent"], Token(id, ns.alnum));
    assert p + ["agent"] + [Token(id, ns.alnum)] == [ns.root, Token(ns.tenant, ns.alnum), "agent", Token(id, ns.alnum)];
  }

  datatype Box = InboxBox | ReplyBox

  function BoxName(b: Box): string
  {
    if b.InboxBox? then "inbox" else "reply"
  }

  function Letter(ns: Namespace, b: Box, to: string, from: string): string
  {
    if b.InboxBox? then Inbox(ns, to, from) else Reply(ns, to, from)
  }

  /** Every inbox or reply subject splits back into the tokens it was made of, so its
      last token is the sender's and its fourth the recipient's. */
  lemma LetterReads(ns: Namespace, b: Box, to: string, from: string)
    requires Valid(ns)
    ensures Reads(Letter(ns, b, to, from),
                  [ns.root, Token(ns.tenant, ns.alnum), "agent", Token(to, ns.alnum), BoxName(b),
                   Token(from, ns.alnum)])
  {
    hide Split, Join;
    var a := [ns.root, Token(ns.tenant, ns.alnum), "agent", Token(to, ns.alnum)];
    AgentReads(ns, to);
    TokenIsOne(from, ns.alnum);
    ReadsOneMore(Agent(ns, to), a, BoxName(b));
    ReadsOneMore(Agent(ns, to) + "." + BoxName(b), a + [BoxName(b)], Token(from, ns.alnum));
    assert a + [BoxName(b)] + [Token(from, ns.alnum)]
        == [ns.root, Token(ns.tenant, ns.alnum), "agent", Token(to, ns.alnum), BoxName(b), Token(from, ns.alnum)];
  }

  /** Inbox and reply subjects by what stands in them. */
  lemma InboxAndReplyRead(ns: Namespace, to: string, from: string)
    requires Valid(ns)
    ensures Split(Inbox(ns, to, from), '.')
            == [ns.root, Token(ns.tenant, ns.alnum), "agent", Token(to, ns.alnum), "inbox", Token(from, ns.alnum)]
    ensures Split(Reply(ns, to, from), '.')
            == [ns.root, Token(ns.tenant, ns.alnum), "agent", Token(to, ns.alnum), "reply", Token(from, ns.alnum)]
  {
    hide Split, Token;
    LetterReads(ns, InboxBox, to, from);
    LetterReads(ns, ReplyBox, to, from);
  }

  function ChannelTokens(ns: Namespace, kind: string, address: string): seq<string>
  {
    [ns.root, Token(ns.tenant, ns.alnum), "channel", Token(kind, ns.alnum)]
    + if address != "" then [Token(address, ns.alnum)] else []
  }

  lemma ChannelReads(ns: Namespace, kind: string, address: string)
    requires Valid(ns)
    ensures Reads(Channel(ns, kind, address), ChannelTokens(ns, kind, address))
  {
    hide Split, Join;
    var p := [ns.root, Token(ns.tenant, ns.alnum)];
    PrefixReads(ns);
    TokenIsOne(kind, ns.alnum);
    TokenIsOne(address, ns.alnum);
    ReadsOneMore(Prefix(ns), p, "channel");
    ReadsOneMore(Prefix(ns) + "." + "channel", p + ["channel"], Token(kind, ns.alnum));
    var base := Prefix(ns) + "." + "channel" + "." + Token(kind, ns.alnum);
    var tokens := [ns.root, Token(ns.tenant, ns.alnum), "channel", Token(kind, ns.alnum)];
    assert p + ["channel"] + [Token(kind, ns.alnum)] == tokens;
    if address != "" {
      ReadsOneMore(base, tokens, Token(address, ns.alnum));
      assert base + "." + Token(address, ns.alnum) == base + ("." + Token(address, ns.alnum));
    } else {
      assert base + "" == base && tokens + [] == tokens;
    }
  }

  // ---- matching -----------------------------------------------------------------------

  /** A pattern of tokens: `*` is any one, `>` any one or more at the end. */
  predicate Matches(pattern: seq<string>, subject: seq<string>)
  {
    if pattern == [] then subject == []
    else if pattern == [">"] then subject != []
    else subject != [] && (pattern[0] == "*" || pattern[0] == subject[0]) && Matches(pattern[1..], subject[1..])
  }

  predicate Selects(pattern: string, subject: string)
  {
    Matches(Split(pattern, '.'), Split(subject, '.'))
  }

  /** Plain tokens then `>`: those tokens, then at least one more. */
  lemma {:induction false} MatchesBelow(plain: seq<string>, subject: seq<string>)
    requires forall t :: t in plain ==> t != "*" && t != ">"
    ensures Matches(plain + [">"], subject) <==> |subject| > |plain| && plain == subject[..|plain|]
  {
    var pattern := plain + [">"];
    if plain == [] {
      assert pattern == [">"];
    } else {
      assert pattern[0] == plain[0] && pattern[1..] == plain[1..] + [">"];
      assert |pattern| > 1 && plain[0] in plain;
      assert forall t :: t in plain[1..] ==> t in plain;
      if subject != [] {
        MatchesBelow(plain[1..], subject[1..]);
        assert plain == [plain[0]] + plain[1..];
        if |subject| > |plain| {
          var head := subject[..|plain|];
          assert head == [subject[0]] + subject[1..][..|plain| - 1];
          assert head[1..] == subject[1..][..|plain| - 1];
        }
      }
    }
  }

  lemma PlainTokens(ns: Namespace)
    requires Valid(ns)
    ensures ns.root != "*" && ns.root != ">"
    ensures forall v :: Token(v, ns.alnum) != "*" && Token(v, ns.alnum) != ">"
  {
    forall v ensures Token(v, ns.alnum) != "*" && Token(v, ns.alnum) != ">" {
      TokenIsOne(v, ns.alnum);
      assert '*' in "*" && '>' in ">";
    }
  }

  /** The tokens of any subject of a tenant begin with its root and its token. */
  ghost predicate SubjectOf(ns: Namespace, s: string, tokens: seq<string>)
  {
    Reads(s, tokens) && |tokens| > 2 && tokens[0] == ns.root && tokens[1] == Token(ns.tenant, ns.alnum)
  }

  /** A tenant's wildcard selects another's subject exactly when their tokens are equal,
      that is when the tenants' names are alike to the bus. */
  lemma TenantsAreIsolatedExactly(ns: Namespace, other: Namespace, s: string, tokens: seq<string>)
    requires Valid(ns) && Valid(other) && ns.root == other.root && SubjectOf(other, s, tokens)
    ensures Selects(Wildcard(ns), s) <==> Token(ns.tenant, ns.alnum) == Token(other.tenant, other.alnum)
    ensures ns.alnum == other.alnum ==> (Selects(Wildcard(ns), s) <==> Alike(ns.tenant, other.tenant, ns.alnum))
  {
    TokensEqualExactly(ns.tenant, other.tenant, ns.alnum);
    hide Alike;
    var p := [ns.root, Token(ns.tenant, ns.alnum)];
    PrefixReads(ns);
    ReadsOneMore(Prefix(ns), p, ">");
    PlainTokens(ns);
    MatchesBelow(p, tokens);
    assert tokens[..2] == [tokens[0], tokens[1]];
  }

  lemma LettersAreSubjects(ns: Namespace, b: Box, to: string, from: string)
    requires Valid(ns)
    ensures SubjectOf(ns, Letter(ns, b, to, from),
                      [ns.root, Token(ns.tenant, ns.alnum), "agent", Token(to, ns.alnum), BoxName(b),
                       Token(from, ns.alnum)])
  {
    LetterReads(ns, b, to, from);
  }

  /** So no other tenant's wildcard overhears an inbox or a reply, unless the tenants'
      names are alike. */
  lemma LettersStayHomeExactly(ns: Namespace, other: Namespace, b: Box, to: string, from: string)
    requires Valid(ns) && Valid(other) && ns.root == other.root && ns.alnum == other.alnum
    ensures Selects(Wildcard(ns), Letter(other, b, to, from)) <==> Alike(ns.tenant, other.tenant, ns.alnum)
  {
    hide Selects, Letter, Wildcard, Alike, Token, SubjectOf;
    LettersAreSubjects(other, b, to, from);
    TenantsAreIsolatedExactly(ns, other, Letter(other, b, to, from),
      [other.root, Token(other.tenant, other.alnum), "agent", Token(to, other.alnum), BoxName(b),
       Token(from, other.alnum)]);
  }

  lemma MailboxReads(ns: Namespace, id: string)
    requires Valid(ns)
    ensures Split(Mailbox(ns, id), '.') == [ns.root, Token(ns.tenant, ns.alnum), "agent", Token(id, ns.alnum)] + [">"]
  {
    AgentReads(ns, id);
    ReadsOneMore(Agent(ns, id), [ns.root, Token(ns.tenant, ns.alnum), "agent", Token(id, ns.alnum)], ">");
  }

  lemma MailboxSelects(ns: Namespace, id: string, s: string, tokens: seq<string>)
    requires Valid(ns) && Reads(s, tokens)
    ensures Selects(Mailbox(ns, id), s) <==>
              |tokens| > 4 && tokens[..4] == [ns.root, Token(ns.tenant, ns.alnum), "agent", Token(id, ns.alnum)]
  {
    MailboxReads(ns, id);
    PlainTokens(ns);
    MatchesBelow([ns.root, Token(ns.tenant, ns.alnum), "agent", Token(id, ns.alnum)], tokens);
  }

  /** An agent's mailbox selects exactly the mail of its tenant addressed to its token:
      any sender's, inbox or reply. By name: the tenants are alike, and so are the agents. */
  lemma MailboxTakesItsMail(ns: Namespace, id: string, other: Namespace, b: Box, to: string, from: string)
    requires Valid(ns) && Valid(other) && ns.root == other.root
    ensures Selects(Mailbox(ns, id), Letter(other, b, to, from)) <==>
              Token(ns.tenant, ns.alnum) == Token(other.tenant, other.alnum)
              && Token(id, ns.alnum) == Token(to, other.alnum)
    ensures ns.alnum == other.alnum ==>
              (Selects(Mailbox(ns, id), Letter(other, b, to, from)) <==>
                 Alike(ns.tenant, other.tenant, ns.alnum) && Alike(id, to, ns.alnum))
  {
    TokensEqualExactly(ns.tenant, other.tenant, ns.alnum);
    TokensEqualExactly(id, to, ns.alnum);
    hide Alike;
    var tokens := [other.root, Token(other.tenant, other.alnum), "agent", Token(to, other.alnum),
                   BoxName(b), Token(from, other.alnum)];
    LetterReads(other, b, to, from);
    MailboxSelects(ns, id, Letter(other, b, to, from), tokens);
    assert tokens[..4] == [other.root, Token(other.tenant, other.alnum), "agent", Token(to, other.alnum)];
  }

  /** And never a channel's subject, nor the bare subject of any agent. */
  lemma MailboxTakesNothingElse(ns: Namespace, id: string, other: Namespace, kind: string, address: string)
    requires Valid(ns) && Valid(other)
    ensures !Selects(Mailbox(ns, id), Channel(other, kind, address))
    ensures !Selects(Mailbox(ns, id), Agent(other, address))
  {
    var c := ChannelTokens(other, kind, address);
    ChannelReads(other, kind, address);
    MailboxSelects(ns, id, Channel(other, kind, address), c);
    assert |c| > 4 ==> c[..4][2] == "channel";
    assert "channel"[0] != "agent"[0];
    AgentReads(other, address);
    MailboxSelects(ns, id, Agent(other, address),
                   [other.root, Token(other.tenant, other.alnum), "agent", Token(address, other.alnum)]);
  }

  lemma AgentsWildcardSelects(ns: Namespace, s: string, tokens: seq<string>)
    requires Valid(ns) && Reads(s, tokens)
    ensures Selects(AgentsWildcard(ns), s) <==>
              |tokens| > 3 && tokens[..3] == [ns.root, Token(ns.tenant, ns.alnum), "agent"]
  {
    var p := [ns.root, Token(ns.tenant, ns.alnum)];
    PrefixReads(ns);
    ReadsOneMore(Prefix(ns), p, "agent");
    ReadsOneMore(Prefix(ns) + "." + "agent", p + ["agent"], ">");
    PlainTokens(ns);
    MatchesBelow(p + ["agent"], tokens);
    assert p + ["agent"] == [ns.root, Token(ns.tenant, ns.alnum), "agent"];
  }

  /** The wildcard over a tenant's agents selects its agents' subjects and all their
      mail, no other tenant's, and no channel's. */
  lemma AgentsWildcardTakesExactly(ns: Namespace, other: Namespace, b: Box, id: string, from: string,
                                   kind: string, address: string)
    requires Valid(ns) && Valid(other) && ns.root == other.root
    ensures Selects(AgentsWildcard(ns), Agent(other, id)) <==>
              Token(ns.tenant, ns.alnum) == Token(other.tenant, other.alnum)
    ensures Selects(AgentsWildcard(ns), Letter(other, b, id, from)) <==>
              Token(ns.tenant, ns.alnum) == Token(other.tenant, other.alnum)
    ensures ns.alnum == other.alnum ==>
              (Selects(AgentsWildcard(ns), Agent(other, id)) <==> Alike(ns.tenant, other.tenant, ns.alnum))
              && (Selects(AgentsWildcard(ns), Letter(other, b, id, from)) <==> Alike(ns.tenant, other.tenant, ns.alnum))
    ensures !Selects(AgentsWildcard(ns), Channel(other, kind, address))
  {
    TokensEqualExactly(ns.tenant, other.tenant, ns.alnum);
    hide Alike, Agent, Letter, Channel, AgentsWildcard, Matches, Selects, Token;
    var a := [other.root, Token(other.tenant, other.alnum), "agent", Token(id, other.alnum)];
    var l := [other.root, Token(other.tenant, other.alnum), "agent", Token(id, other.alnum),
              BoxName(b), Token(from, other.alnum)];
    var c := ChannelTokens(other, kind, address);
    AgentReads(other, id);
    AgentsWildcardSelects(ns, Agent(other, id), a);
    LetterReads(other, b, id, from);
    AgentsWildcardSelects(ns, Letter(other, b, id, from), l);
    assert a[..3] == l[..3] == [other.root, Token(other.tenant, other.alnum), "agent"];
    ChannelReads(other, kind, address);
    AgentsWildcardSelects(ns, Channel(other, kind, address), c);
    assert |c| > 3 ==> c[..3][2] == "channel";
    assert "channel"[0] != "agent"[0];
  }

  /** A channel's declared stream takes exactly that channel's subjects, with or without
      an address, and those of a channel whose kind has a name alike. */
  lemma StreamTakesItsChannel(ns: Namespace, kind: string, other: string, address: string)
    requires Valid(ns)
    ensures Selects(Channel(ns, kind, ""), Channel(ns, other, address))
            || Selects(Channel(ns, kind, "") + "." + ">", Channel(ns, other, address))
            <==> Alike(kind, other, ns.alnum)
  {
    TokensEqualExactly(kind, other, ns.alnum);
    hide Alike, Matches, Token, Channel, Reads, NoDots;
    var plain := ChannelTokens(ns, kind, "");
    var tokens := ChannelTokens(ns, other, address);
    ChannelReads(ns, kind, "");
    ChannelReads(ns, other, address);
    ReadsOneMore(Channel(ns, kind, ""), plain, ">");
    PlainTokens(ns);
    MatchesBelow(plain, tokens);
    MatchesItself(plain, tokens);
    assert plain == [ns.root, Token(ns.tenant, ns.alnum), "channel", Token(kind, ns.alnum)];
    assert tokens[..4] == [ns.root, Token(ns.tenant, ns.alnum), "channel", Token(other, ns.alnum)];
    assert plain == tokens[..4] <==> Token(kind, ns.alnum) == Token(other, ns.alnum) by {
      assert plain[3] == Token(kind, ns.alnum) && tokens[..4][3] == Token(other, ns.alnum);
    }
    assert |tokens| == 4 ==> tokens[..4] == tokens;
  }

  lemma {:induction false} MatchesItself(plain: seq<string>, subject: seq<string>)
    requires forall t :: t in plain ==> t != "*" && t != ">"
    ensures Matches(plain, subject) <==> plain == subject
  {
    if plain != [] && subject != [] {
      assert plain[0] in plain;
      assert forall t :: t in plain[1..] ==> t in plain;
      MatchesItself(plain[1..], subject[1..]);
      assert plain == [plain[0]] + plain[1..] && subject == [subject[0]] + subject[1..];
    }
  }
}
