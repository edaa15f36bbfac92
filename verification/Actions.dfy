/** Proposed actions, the tools that own them, and the permission an action requires. */
module Actions {
  import opened Collections
  import opened Text

  datatype RiskTier = Read | Write | Send | Delete | Pay

  predicate RequiresApproval(tier: RiskTier) {
    tier != Read
  }

  type Args = map<string, string>

  datatype ProposedAction = ProposedAction(actionId: string, tool: string, args: Args,
                                           tier: RiskTier, stamped: Option<string>)

  /** How a tool's argument schema validates and which argument scopes its permission. */
  datatype Schema =
    | ChannelSchema                                          // slack_post
    | RecipientSchema                                        // send_email, gmail_send
    | PlainSchema(required: set<string>, defaults: Args)     // no resource segment

  datatype Tool = Tool(name: string, tier: RiskTier, base: Option<string>, schema: Schema)

  type Registry = map<string, Tool>

  const SLACK_MAX_TEXT_CHARS := 40_000

  function Get(args: Args, key: string, default: string): string {
    if key in args then args[key] else default
  }

  // ----- argument validation -----

  /** The validator of a Slack channel: trims, refuses users and direct messages, and folds the case
      of `#names`. */
  function ValidChannel(value: string): Option<string> {
    if |value| < 1 then None else TrimmedChannel(Strip(value))
  }

  function TrimmedChannel(stripped: string): Option<string> {
    if stripped != "" && stripped[0] == '@' then None
    else if |stripped| > 1 && stripped[0] in {'U', 'u', 'D', 'd'} then None
    else if stripped != "" && stripped[0] == '#' then Some("#" + Lower(stripped[1..]))
    else Some(stripped)
  }

  predicate AddressChar(c: char) {
    c != '@' && !IsSpace(c)
  }

  /** Full match of `[^@\s]+@[^@\s]+`. */
  predicate IsAddress(value: string) {
    exists k | 0 < k < |value| - 1 ::
      && value[k] == '@'
      && forall i | 0 <= i < |value| && i != k :: AddressChar(value[i])
  }

  function ChannelArgs(channel: string, text: string): (args: Args)
    ensures "channel" in args && args["channel"] == channel
    ensures "text" in args && args["text"] == text
  {
    map["channel" := channel, "text" := text]
  }

  function Validate(schema: Schema, args: Args): Option<Args> {
    match schema
    case ChannelSchema =>
      if "channel" !in args || "text" !in args then None
      else if !(1 <= |args["text"]| <= SLACK_MAX_TEXT_CHARS) then None
      else
        var channel := ValidChannel(args["channel"]);
        if channel.None? then None
        else Some(ChannelArgs(channel.value, args["text"]))
    case RecipientSchema =>
      if "to" !in args || |args["to"]| < 3 || !IsAddress(args["to"]) then None
      else Some(map["to" := args["to"], "subject" := Get(args, "subject", ""), "body" := Get(args, "body", "")])
    case PlainSchema(required, defaults) =>
      if exists key | key in required :: key !in args || args[key] == "" then None
      else Some(map key | key in required + defaults.Keys ::
                  if key in args then args[key] else defaults[key])
  }

  // ----- permissions -----

  function ChannelSegment(channel: string): string {
    if channel != "" && channel[0] == '#' then "channel:" + Lower(channel[1..]) else "channel:" + channel
  }

  /** The part after the last `@`. */
  function AfterLastAt(s: string): string {
    if s == "" then "" else if s[|s| - 1] == '@' then ""
    else AfterLastAt(s[..|s| - 1]) + [s[|s| - 1]]
  }

  function RecipientDomain(recipient: string): string {
    var domain := Lower(AfterLastAt(recipient));
    if domain != "" then domain else Lower(recipient)
  }

  function Resource(schema: Schema, args: Args): Option<string> {
    match schema
    case ChannelSchema => Some(ChannelSegment(Get(args, "channel", "")))
    case RecipientSchema => Some("domain:" + RecipientDomain(Get(args, "to", "")))
    case PlainSchema(_, _) => None
  }

  function Combine(base: Option<string>, resource: Option<string>): Option<string> {
    if base.None? || resource.None? then base else Some(base.value + ":" + resource.value)
  }

  function PermissionFor(tool: Tool, validated: Args): Option<string> {
    Combine(tool.base, Resource(tool.schema, validated))
  }

  /** Build a risk-tagged action: tier and permission come from the tool, never from the caller. */
  function Propose(tool: Tool, args: Args, actionId: string): Option<ProposedAction> {
    var validated := Validate(tool.schema, args);
    if validated.None? then None
    else Some(ProposedAction(actionId, tool.name, validated.value, tool.tier,
                             PermissionFor(tool, validated.value)))
  }

  /** Re-derive the permission from the arguments at hand and reconcile it with the stamp;
      `None` is the raised error, which every caller turns into a denial. */
  function RequiredPermission(action: ProposedAction, tool: Tool): Option<Option<string>> {
    var validated := Validate(tool.schema, action.args);
    if validated.None? then None
    else
      var derived := PermissionFor(tool, validated.value);
      if action.stamped.Some? && action.stamped != derived then None else Some(derived)
  }

  // ----- a fresh proposal resolves to its own stamp -----

  lemma LowerTwice(s: string)
    ensures Lower(Lower(s)) == Lower(s)
  {
  }

  lemma LoweredNameSettles(stripped: string)
    requires stripped != "" && stripped[0] == '#' && !IsSpace(stripped[|stripped| - 1])
    ensures ValidChannel("#" + Lower(stripped[1..])) == Some("#" + Lower(stripped[1..]))
  {
    LowerTwice(stripped[1..]);
    LoweredEnd(stripped[1..]);
    assert |stripped| > 1 ==> stripped[1..][|stripped| - 2] == stripped[|stripped| - 1];
    FoldedNameIsValid(Lower(stripped[1..]));
  }

  lemma LoweredEnd(s: string)
    ensures s != "" && !IsSpace(s[|s| - 1]) ==> Lower(s) != "" && !IsSpace(Lower(s)[|s| - 1])
  {
  }

  lemma HashStays(name: string)
    requires name != "" ==> !IsSpace(name[|name| - 1])
    ensures Strip("#" + name) == "#" + name
  {
    var channel := "#" + name;
    assert channel[|channel| - 1] == if name == "" then '#' else name[|name| - 1];
  }

  lemma TrimmedName(name: string)
    ensures TrimmedChannel("#" + name) == Some("#" + Lower(name))
  {
    assert ("#" + name)[1..] == name;
  }

  lemma FoldedNameIsValid(name: string)
    requires Lower(name) == name && (name != "" ==> !IsSpace(name[|name| - 1]))
    ensures ValidChannel("#" + name) == Some("#" + name)
  {
    HashStays(name);
    TrimmedName(name);
  }

  /** Validating a validated channel changes nothing, unless nothing is left of it. */
  lemma ChannelValidationSettles(value: string)
    requires ValidChannel(value).Some?
    ensures var channel := ValidChannel(value).value;
            ValidChannel(channel) == if Strip(value) == "" then None else Some(channel)
  {
    var stripped := Strip(value);
    if stripped != "" && stripped[0] == '#' {
      LoweredNameSettles(stripped);
    }
  }

  predicate BlankChannel(schema: Schema, args: Args) {
    schema.ChannelSchema? && "channel" in args && Strip(args["channel"]) == ""
  }

  lemma ChannelArgsSettle(args: Args)
    requires Validate(ChannelSchema, args).Some?
    ensures var validated := Validate(ChannelSchema, args).value;
            Validate(ChannelSchema, validated) ==
              if Strip(args["channel"]) == "" then None else Some(validated)
  {
    var channel := ValidChannel(args["channel"]).value;
    ChannelValidationSettles(args["channel"]);
    assert Validate(ChannelSchema, args).value == ChannelArgs(channel, args["text"]);
  }

  /** Validation is idempotent on every schema, a blank channel apart. */
  lemma ValidationSettles(schema: Schema, args: Args)
    requires Validate(schema, args).Some?
    ensures var validated := Validate(schema, args).value;
            Validate(schema, validated) == if BlankChannel(schema, args) then None else Some(validated)
  {
    var validated := Validate(schema, args).value;
    match schema
    case ChannelSchema =>
      ChannelArgsSettle(args);
    case RecipientSchema =>
      assert validated["to"] == args["to"];
    case PlainSchema(required, defaults) =>
      var again := Validate(schema, validated);
      assert again.Some?;
      assert again.value == validated;
  }

  /** What the planner and the executor re-derive for a freshly proposed action is its stamp, with a
      single exception: a channel of nothing but whitespace, which is therefore always denied. */
  lemma FreshProposalResolvesIff(tool: Tool, args: Args, actionId: string)
    requires Propose(tool, args, actionId).Some?
    ensures var action := Propose(tool, args, actionId).value;
            RequiredPermission(action, tool) ==
              if BlankChannel(tool.schema, args) then None else Some(action.stamped)
  {
    ValidationSettles(tool.schema, args);
  }

  /** The channel the permission names is the channel the message is posted to. */
  lemma SegmentNamesPostedChannel(value: string)
    requires ValidChannel(value).Some?
    ensures var channel := ValidChannel(value).value;
            ChannelSegment(channel) ==
              "channel:" + if channel != "" && channel[0] == '#' then channel[1..] else channel
  {
    var stripped := Strip(value);
    if stripped != "" && stripped[0] == '#' {
      LowerTwice(stripped[1..]);
      assert ("#" + Lower(stripped[1..]))[1..] == Lower(stripped[1..]);
    }
  }

  /** A well-formed recipient never yields an empty domain segment. */
  lemma {:induction false} DomainOfAddress(value: string, k: nat)
    requires 0 < k < |value| && value[k] == '@'
    requires forall i | k < i < |value| :: value[i] != '@'
    ensures AfterLastAt(value) == value[k + 1..]
  {
    if k < |value| - 1 {
      DomainOfAddress(value[..|value| - 1], k);
      assert value[k + 1..] == value[..|value| - 1][k + 1..] + [value[|value| - 1]];
    }
  }

  lemma AddressDomainIsNonEmpty(value: string)
    requires IsAddress(value)
    ensures exists k | 0 < k < |value| - 1 ::
              value[k] == '@' && RecipientDomain(value) == Lower(value[k + 1..]) != ""
  {
    var k :| 0 < k < |value| - 1 && value[k] == '@' &&
             forall i | 0 <= i < |value| && i != k :: AddressChar(value[i]);
    DomainOfAddress(value, k);
    assert |Lower(value[k + 1..])| > 0;
  }

  // ----- what a validated action is aimed at, and what it requires -----

  /** Exactly the empty value, mentions, users and direct messages are refused as channels. */
  lemma ChannelRefusedIff(value: string)
    ensures ValidChannel(value).None? <==>
            || value == "" || (Strip(value) != "" && Strip(value)[0] == '@')
            || (|Strip(value)| > 1 && LowerChar(Strip(value)[0]) in {'u', 'd'})
  {
  }

  lemma LowerOfName(stripped: string)
    requires stripped != "" && stripped[0] == '#'
    ensures "#" + Lower(stripped[1..]) == Lower(stripped)
  {
    assert forall i | 0 < i < |stripped| :: Lower(stripped[1..])[i - 1] == LowerChar(stripped[i]);
  }

  /** A validated channel is the given one, trimmed, with the case of a `#name` folded. */
  lemma ChannelIsTheOneGiven(value: string)
    requires ValidChannel(value).Some?
    ensures var given := Strip(value);
            ValidChannel(value).value == if given != "" && given[0] == '#' then Lower(given) else given
  {
    if Strip(value) != "" && Strip(value)[0] == '#' {
      LowerOfName(Strip(value));
    }
  }

  /** The name of a channel, without the mark of a name. */
  function ChannelName(channel: string): string {
    if channel != "" && channel[0] == '#' then channel[1..] else channel
  }

  lemma SentAsGiven(args: Args)
    requires Validate(ChannelSchema, args).Some?
    ensures var sent := Validate(ChannelSchema, args).value;
            && "channel" in args && "channel" in sent && ValidChannel(args["channel"]) == Some(sent["channel"])
            && "text" in args && "text" in sent && sent["text"] == args["text"]
  {
  }

  /** A post is refused exactly if it lacks a channel or a text, the text is empty or over 40,000 characters, or
      the channel is empty, a user or a direct message. */
  lemma PostRefusedIff(args: Args)
    ensures Validate(ChannelSchema, args).None? <==>
            || "channel" !in args || "text" !in args || args["text"] == "" || |args["text"]| > 40_000
            || args["channel"] == ""
            || (Strip(args["channel"]) != "" && Strip(args["channel"])[0] == '@')
            || (|Strip(args["channel"])| > 1 && LowerChar(Strip(args["channel"])[0]) in {'u', 'd'})
  {
    if "channel" in args {
      ChannelRefusedIff(args["channel"]);
    }
  }

  /** A name and a domain around a single at sign, both non-empty and free of white space. */
  predicate Spells(value: string, local: string, domain: string) {
    && value == local + "@" + domain && local != "" && domain != ""
    && SpaceFree(local) && SpaceFree(domain) && '@' !in local && '@' !in domain
  }

  lemma AddressIff(value: string)
    ensures IsAddress(value) <==> exists local, domain :: Spells(value, local, domain)
  {
    if IsAddress(value) {
      var k :| 0 < k < |value| - 1 && value[k] == '@' && forall i | 0 <= i < |value| && i != k :: AddressChar(value[i]);
      assert Spells(value, value[..k], value[k + 1..]);
    }
    if local, domain :| Spells(value, local, domain) {
      assert value[|local|] == '@';
      forall i | 0 <= i < |value| && i != |local| ensures AddressChar(value[i]) {
        if i < |local| {
          assert value[i] == local[i];
        } else {
          assert value[i] == domain[i - |local| - 1];
        }
      }
    }
  }

  /** A mail is refused exactly if its recipient is not spelled so. */
  lemma MailRefusedIff(args: Args)
    ensures Validate(RecipientSchema, args).None? <==>
            "to" !in args || !exists local, domain :: Spells(args["to"], local, domain)
  {
    if "to" in args {
      AddressIff(args["to"]);
    }
  }

  /** What is mailed is what was asked for; a subject or a body that was not given is empty. */
  lemma MailedAsGiven(args: Args)
    requires Validate(RecipientSchema, args).Some?
    ensures var sent := Validate(RecipientSchema, args).value;
            && sent.Keys == {"to", "subject", "body"} && "to" in args && sent["to"] == args["to"]
            && forall key | key in {"subject", "body"} :: sent[key] == if key in args then args[key] else ""
  {
  }

  /** Other tools: every required argument must be given, and each argument is as given or its default. */
  lemma PlainSentAsGiven(required: set<string>, defaults: Args, args: Args)
    ensures Validate(PlainSchema(required, defaults), args).None? <==>
            exists key | key in required :: Get(args, key, "") == ""
    ensures Validate(PlainSchema(required, defaults), args).Some? ==>
              var sent := Validate(PlainSchema(required, defaults), args).value;
              && sent.Keys == required + defaults.Keys
              && forall key | key in sent ::
                   if key in args then sent[key] == args[key] else key in defaults && sent[key] == defaults[key]
  {
    if key :| key in required && (key !in args || args[key] == "") {
      assert Get(args, key, "") == "";
    }
  }

  /** A message posted to a channel requires the tool's permission for the channel of that name. */
  lemma ChannelPermission(tool: Tool, args: Args, base: string)
    requires tool.schema.ChannelSchema? && tool.base == Some(base) && Validate(tool.schema, args).Some?
    ensures var sent := Validate(tool.schema, args).value;
            && "channel" in sent
            && PermissionFor(tool, sent) == Some(base + ":channel:" + ChannelName(sent["channel"]))
  {
    SentAsGiven(args);
    SegmentNamesPostedChannel(args["channel"]);
    NamedPermission(tool, Validate(tool.schema, args).value, base);
  }

  lemma NamedPermission(tool: Tool, sent: Args, base: string)
    requires tool.schema.ChannelSchema? && tool.base == Some(base) && "channel" in sent
    requires ChannelSegment(sent["channel"]) == "channel:" + ChannelName(sent["channel"])
    ensures PermissionFor(tool, sent) == Some(base + ":channel:" + ChannelName(sent["channel"]))
  {
    JoinSegment(base, "channel:", ChannelName(sent["channel"]));
    assert ":" + "channel:" == ":channel:";
  }

  lemma JoinSegment(base: string, kind: string, name: string)
    ensures base + ":" + (kind + name) == base + (":" + kind) + name
  {
  }

  /** Mail to `local@domain` requires the tool's permission for that domain, in lower case. */
  lemma DomainPermission(tool: Tool, args: Args, base: string, local: string, domain: string)
    requires tool.schema.RecipientSchema? && tool.base == Some(base) && Validate(tool.schema, args).Some?
    requires "to" in args && args["to"] == local + "@" + domain && '@' !in domain
    ensures var sent := Validate(tool.schema, args).value;
            && "to" in sent && sent["to"] == args["to"]
            && domain != "" && PermissionFor(tool, sent) == Some(base + ":domain:" + Lower(domain))
  {
    var to := args["to"];
    var k := |local|;
    AddressHasOneAt(to, k);
    DomainOfAddress(to, k);
    assert to[k + 1..] == domain && |Lower(domain)| == |domain|;
    JoinSegment(base, "domain:", Lower(domain));
    assert ":" + "domain:" == ":domain:";
  }

  lemma AddressHasOneAt(value: string, k: nat)
    requires IsAddress(value) && k < |value| && value[k] == '@'
    ensures 0 < k < |value| - 1 && forall i | k < i < |value| :: value[i] != '@'
  {
    var j :| 0 < j < |value| - 1 && value[j] == '@' && forall i | 0 <= i < |value| && i != j :: AddressChar(value[i]);
    assert j == k;
  }

  /** A well-formed recipient is `local@domain` with both parts present. */
  lemma AddressSplits(value: string) returns (local: string, domain: string)
    requires IsAddress(value)
    ensures value == local + "@" + domain && local != "" && domain != "" && '@' !in domain
  {
    var k :| 0 < k < |value| - 1 && value[k] == '@' && forall i | 0 <= i < |value| && i != k :: AddressChar(value[i]);
    local, domain := value[..k], value[k + 1..];
  }

  /** Tools without a target argument require their own permission, and tools without one require none. */
  lemma UnscopedPermission(tool: Tool, sent: Args)
    ensures tool.schema.PlainSchema? ==> PermissionFor(tool, sent) == tool.base
    ensures tool.base.None? ==> PermissionFor(tool, sent).None?
  {
  }

  /** Two messages of one tool require the same permission exactly if they go to channels of one name. */
  lemma ChannelsAreToldApart(tool: Tool, a: Args, b: Args)
    requires tool.schema.ChannelSchema? && tool.base.Some?
    requires Validate(tool.schema, a).Some? && Validate(tool.schema, b).Some?
    ensures var x, y := Validate(tool.schema, a).value, Validate(tool.schema, b).value;
            && "channel" in x && "channel" in y
            && (PermissionFor(tool, x) == PermissionFor(tool, y) <==> ChannelName(x["channel"]) == ChannelName(y["channel"]))
  {
    ChannelPermission(tool, a, tool.base.value);
    ChannelPermission(tool, b, tool.base.value);
    var x, y := Validate(tool.schema, a).value, Validate(tool.schema, b).value;
    SuffixesDiffer(tool.base.value + ":channel:", ChannelName(x["channel"]), ChannelName(y["channel"]));
  }

  /** And two mails exactly if they go to one domain, case aside. */
  lemma DomainsAreToldApart(tool: Tool, a: Args, b: Args, la: string, da: string, lb: string, db: string)
    requires tool.schema.RecipientSchema? && tool.base.Some?
    requires Validate(tool.schema, a).Some? && Validate(tool.schema, b).Some?
    requires "to" in a && a["to"] == la + "@" + da && '@' !in da
    requires "to" in b && b["to"] == lb + "@" + db && '@' !in db
    ensures PermissionFor(tool, Validate(tool.schema, a).value) == PermissionFor(tool, Validate(tool.schema, b).value) <==>
            Lower(da) == Lower(db)
  {
    DomainPermission(tool, a, tool.base.value, la, da);
    DomainPermission(tool, b, tool.base.value, lb, db);
    SuffixesDiffer(tool.base.value + ":domain:", Lower(da), Lower(db));
  }

  lemma SuffixesDiffer(head: string, a: string, b: string)
    ensures head + a == head + b <==> a == b
  {
    assert (head + a)[|head|..] == a && (head + b)[|head|..] == b;
  }

  /** What an action requires: the permission of its arguments, provided they validate and agree with the
      stamp, if there is one. */
  lemma RequiresIff(action: ProposedAction, tool: Tool, permission: Option<string>)
    ensures RequiredPermission(action, tool) == Some(permission) <==>
            && Validate(tool.schema, action.args).Some?
            && permission == PermissionFor(tool, Validate(tool.schema, action.args).value)
            && (action.stamped == None || action.stamped == permission)
  {
  }

  /** A proposal carries the tool's name and tier and the permission of the arguments it carries. */
  lemma ProposalIsTagged(tool: Tool, args: Args, actionId: string)
    requires Propose(tool, args, actionId).Some?
    ensures var action := Propose(tool, args, actionId).value;
            && action.actionId == actionId && action.tool == tool.name && action.tier == tool.tier
            && Validate(tool.schema, args) == Some(action.args) && action.stamped == PermissionFor(tool, action.args)
  {
  }
}
