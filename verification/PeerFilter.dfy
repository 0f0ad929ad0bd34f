/** The peer filter: an ordered rule list, evaluated by sorting and taking the first match. */
module PeerFilters {
  import opened Basics

  // ----- addresses and networks -----

  datatype Family = V4 | V6

  function Width(family: Family): nat
  {
    if family.V4? then 32 else 128
  }

  // An address as its bits, most significant first.
  datatype Address = Address(family: Family, bits: seq<bool>)

  type IpAddr = a: Address | |a.bits| == Width(a.family) witness Address(V4, seq(32, _ => false))

  // A network: an address, whose host bits need not be zero, and a prefix length.
  datatype Network = Network(address: IpAddr, prefix: nat)

  type IpNet = n: Network | n.prefix <= Width(n.address.family)
    witness Network(Address(V4, seq(32, _ => false)), 0)

  // The address is in the network: same family, same bits in the prefix.
  predicate Contains(net: IpNet, ip: IpAddr)
  {
    net.address.family == ip.family && net.address.bits[..net.prefix] == ip.bits[..net.prefix]
  }

  function Anywhere(family: Family): (net: IpNet)
    ensures forall ip: IpAddr :: Contains(net, ip) <==> ip.family == family
  {
    Network(Address(family, seq(Width(family), _ => false)), 0)
  }

  // Two networks are nested or disjoint (section 3.1 of RFC 4632).
  lemma NestedOrDisjoint(a: IpNet, b: IpNet, ip: IpAddr, other: IpAddr)
    requires Contains(a, ip) && Contains(b, ip) && a.prefix <= b.prefix && Contains(b, other)
    ensures Contains(a, other)
  {
    assert ip.bits[..a.prefix] == ip.bits[..b.prefix][..a.prefix];
    assert other.bits[..a.prefix] == other.bits[..b.prefix][..a.prefix];
  }

  // ----- networks in numbers -----

  // The number whose binary digits these are.
  function Value(bits: seq<bool>): nat
  {
    if bits == [] then 0 else 2 * Value(Init(bits)) + (if Last(bits) then 1 else 0)
  }

  function Pow2(n: nat): (p: nat)
    ensures p > 0
  {
    if n == 0 then 1 else 2 * Pow2(n - 1)
  }

  lemma {:induction false} SameValue(a: seq<bool>, b: seq<bool>)
    requires |a| == |b|
    ensures Value(a) == Value(b) <==> a == b
  {
    if a != [] {
      SameValue(Init(a), Init(b));
      assert a == Init(a) + [Last(a)] && b == Init(b) + [Last(b)];
    }
  }

  lemma MultipleOrder(a: nat, b: nat, d: nat)
    requires a <= b
    ensures a * d <= b * d
  {
    assert b * d - a * d == (b - a) * d;
  }

  lemma FactorOrder(a: nat, b: nat, d: nat)
    requires a * d < b * d + d
    ensures a <= b
  {
    if a > b {
      assert (b + 1) * d == b * d + d;
      MultipleOrder(b + 1, a, d);
    }
  }

  lemma QuotientIs(n: nat, d: nat, q: nat, r: nat)
    requires d > 0 && r < d && n == q * d + r
    ensures n / d == q
  {
    var p := n / d;
    assert n == p * d + n % d;
    FactorOrder(p, q, d);
    FactorOrder(q, p, d);
  }

  // Halving k times is dividing by the k-th power of two.
  lemma HalfOfQuotient(n: nat, d: nat)
    requires d > 0
    ensures n / (2 * d) == n / 2 / d
  {
    var h := n / 2;
    var q, r := h / d, h % d;
    assert h == q * d + r && r < d;
    assert n == 2 * h + n % 2;
    assert n == q * (2 * d) + (2 * r + n % 2) by {
      assert 2 * (q * d) == q * (2 * d);
    }
    QuotientIs(n, 2 * d, q, 2 * r + n % 2);
  }

  // The leading bits are the quotient by a power of two.
  lemma {:induction false} LeadingBits(bits: seq<bool>, p: nat)
    requires p <= |bits|
    ensures Value(bits) / Pow2(|bits| - p) == Value(bits[..p])
  {
    if p == |bits| {
      assert bits[..p] == bits;
    } else {
      LeadingBits(Init(bits), p);
      assert Init(bits)[..p] == bits[..p];
      var k: nat := |bits| - 1 - p;
      assert Value(bits) / 2 == Value(Init(bits));
      assert Pow2(|bits| - p) == 2 * Pow2(k);
      HalfOfQuotient(Value(bits), Pow2(k));
    }
  }

  // A network holds the addresses of its family that agree with its own after division by 2 to the
  // number of its host bits.
  lemma ContainsIff(net: IpNet, ip: IpAddr)
    ensures Contains(net, ip) <==>
            && net.address.family == ip.family
            && var size := Pow2(Width(ip.family) - net.prefix);
               Value(ip.bits) / size == Value(net.address.bits) / size
  {
    if net.address.family == ip.family {
      LeadingBits(ip.bits, net.prefix);
      LeadingBits(net.address.bits, net.prefix);
      SameValue(ip.bits[..net.prefix], net.address.bits[..net.prefix]);
    }
  }

  function Digits(n: nat, width: nat): (bits: seq<bool>)
    ensures |bits| == width
  {
    if width == 0 then [] else Digits(n / 2, width - 1) + [n % 2 == 1]
  }

  lemma {:induction false} ValueOfDigits(n: nat, width: nat)
    requires n < Pow2(width)
    ensures Value(Digits(n, width)) == n
  {
    if width > 0 {
      ValueOfDigits(n / 2, width - 1);
      InitOfSnoc(Digits(n / 2, width - 1), n % 2 == 1);
    }
  }

  // An IPv4 address from its four octets.
  function Ipv4(a: byte, b: byte, c: byte, d: byte): IpAddr
  {
    Address(V4, Digits(((a * 256 + b) * 256 + c) * 256 + d, 32))
  }

  lemma Pow2s()
    ensures Pow2(8) == 256 && Pow2(24) == 0x100_0000 && Pow2(32) == 0x1_0000_0000
  {
    Pow2Sum(4, 4);
    Pow2Sum(8, 8);
    Pow2Sum(16, 8);
    Pow2Sum(16, 16);
  }

  lemma {:induction false} Pow2Sum(m: nat, n: nat)
    ensures Pow2(m + n) == Pow2(m) * Pow2(n)
  {
    if m > 0 {
      Pow2Sum(m - 1, n);
    }
  }

  // A network of prefix length 8 holds the addresses with its first octet, whatever the others are.
  lemma FirstOctetDecides(a: byte, b: byte, c: byte, d: byte, a': byte, b': byte, c': byte, d': byte)
    ensures Contains(Network(Ipv4(a, b, c, d), 8), Ipv4(a', b', c', d')) <==> a == a'
  {
    hide Contains, Digits, Value;
    Pow2s();
    var n, n' := ((a * 256 + b) * 256 + c) * 256 + d, ((a' * 256 + b') * 256 + c') * 256 + d';
    ValueOfDigits(n, 32);
    ValueOfDigits(n', 32);
    ContainsIff(Network(Ipv4(a, b, c, d), 8), Ipv4(a', b', c', d'));
    assert n == a * 0x100_0000 + ((b * 256 + c) * 256 + d);
    assert n' == a' * 0x100_0000 + ((b' * 256 + c') * 256 + d');
    QuotientIs(n, 0x100_0000, a, (b * 256 + c) * 256 + d);
    QuotientIs(n', 0x100_0000, a', (b' * 256 + c') * 256 + d');
  }

  // ----- rules -----

  datatype Action = Allow | Deny

  datatype Rule = Rule(action: Action, target: IpNet)

  // The action for an address the rule is about.
  function Evaluate(rule: Rule, ip: IpAddr): Option<Action>
  {
    if Contains(rule.target, ip) then Some(rule.action) else None
  }

  // Prefix length and action packed into one sort key: Allow goes before Deny.
  function Key(rule: Rule): nat
  {
    rule.target.prefix * 2 + (if rule.action.Allow? then 1 else 0)
  }

  // ----- order of evaluation -----

  predicate Below(order: seq<nat>, n: nat)
  {
    forall k :: 0 <= k < |order| ==> order[k] < n
  }

  // sort_by in descending order of key, stable: an index goes behind those of equal key.
  function Insert(rules: seq<Rule>, order: seq<nat>, i: nat): (r: seq<nat>)
    requires i < |rules| && Below(order, |rules|)
    ensures Below(r, |rules|) && |r| == |order| + 1
    ensures forall n :: i < n && Below(order, n) ==> Below(r, n)
  {
    if order == [] || Key(rules[order[0]]) < Key(rules[i]) then [i] + order
    else
      assert forall n :: Below(order, n) ==> Below(order[1..], n);
      [order[0]] + Insert(rules, order[1..], i)
  }

  function SortIndices(rules: seq<Rule>, n: nat): (order: seq<nat>)
    requires n <= |rules|
    ensures Below(order, n) && |order| == n
  {
    if n == 0 then [] else Insert(rules, SortIndices(rules, n - 1), n - 1)
  }

  // a is evaluated before b: greater key, or equal key and earlier in the list.
  predicate Precedes(rules: seq<Rule>, a: nat, b: nat)
    requires a < |rules| && b < |rules|
  {
    Key(rules[a]) > Key(rules[b]) || (Key(rules[a]) == Key(rules[b]) && a < b)
  }

  predicate InOrder(rules: seq<Rule>, order: seq<nat>)
    requires Below(order, |rules|)
  {
    forall x, y :: 0 <= x < y < |order| ==> Precedes(rules, order[x], order[y])
  }

  // Inserting keeps the order, and what was in it.
  lemma {:induction false} InsertSorts(rules: seq<Rule>, order: seq<nat>, i: nat)
    requires i < |rules| && Below(order, i) && InOrder(rules, order)
    ensures InOrder(rules, Insert(rules, order, i))
    ensures forall j :: j in Insert(rules, order, i) <==> j == i || j in order
    decreases |order|
  {
    if !(order == [] || Key(rules[order[0]]) < Key(rules[i])) {
      var rest := order[1..];
      InsertSorts(rules, rest, i);
      var tail := Insert(rules, rest, i);
      assert order == [order[0]] + rest;
      forall y | 0 <= y < |tail|
        ensures Precedes(rules, order[0], tail[y])
      {
        assert tail[y] in tail;
      }
    }
  }

  // The order of evaluation holds each rule once and is the stable descending one.
  lemma {:induction false} SortIndicesSorts(rules: seq<Rule>, n: nat)
    requires n <= |rules|
    ensures InOrder(rules, SortIndices(rules, n))
    ensures forall j :: j in SortIndices(rules, n) <==> 0 <= j < n
  {
    if n > 0 {
      SortIndicesSorts(rules, n - 1);
      InsertSorts(rules, SortIndices(rules, n - 1), n - 1);
    }
  }

  function Select(rules: seq<Rule>, order: seq<nat>): (r: seq<Rule>)
    requires Below(order, |rules|)
    ensures |r| == |order| && forall k :: 0 <= k < |r| ==> r[k] == rules[order[k]]
  {
    seq(|order|, k requires 0 <= k < |order| => rules[order[k]])
  }

  // The rules in order of evaluation, with the implicit deny rules at the end.
  function Ordered(rules: seq<Rule>): seq<Rule>
  {
    Select(rules, SortIndices(rules, |rules|)) + [Rule(Deny, Anywhere(V4)), Rule(Deny, Anywhere(V6))]
  }

  function FirstMatch(rules: seq<Rule>, ip: IpAddr): Option<(Action, Rule)>
  {
    if rules == [] then None
    else if Contains(rules[0].target, ip) then Some((rules[0].action, rules[0]))
    else FirstMatch(rules[1..], ip)
  }

  // ----- the declarative rule -----

  predicate Matches(rules: seq<Rule>, ip: IpAddr, rule: Rule)
  {
    rule in rules && Contains(rule.target, ip)
  }

  // rule matches and no rule with a longer prefix does.
  ghost predicate MostSpecific(rules: seq<Rule>, ip: IpAddr, rule: Rule)
  {
    Matches(rules, ip, rule) && forall r :: Matches(rules, ip, r) ==> r.target.prefix <= rule.target.prefix
  }

  // Among the matching rules of greatest prefix length an Allow wins; nothing matching is denied.
  ghost predicate Allows(rules: seq<Rule>, ip: IpAddr)
  {
    exists rule :: MostSpecific(rules, ip, rule) && rule.action.Allow?
  }

  // The decision of the sorted scan.
  function Verdict(rules: seq<Rule>, ip: IpAddr): Action
  {
    match FirstMatch(Ordered(rules), ip)
    case Some((action, _)) => action
    case None => Deny
  }

  lemma {:induction false} FirstMatchFound(rules: seq<Rule>, ip: IpAddr) returns (k: nat)
    ensures k <= |rules| && forall i :: 0 <= i < k ==> !Contains(rules[i].target, ip)
    ensures FirstMatch(rules, ip) ==
            if k < |rules| then Some((rules[k].action, rules[k])) else None
    ensures k < |rules| ==> Contains(rules[k].target, ip)
    decreases |rules|
  {
    if rules == [] || Contains(rules[0].target, ip) {
      k := 0;
    } else {
      k := FirstMatchFound(rules[1..], ip);
      k := k + 1;
    }
  }

  // The scan always finds a rule: the implicit denies catch what is left.
  lemma ScanIsTotal(rules: seq<Rule>, ip: IpAddr)
    ensures FirstMatch(Ordered(rules), ip).Some?
  {
    var k := FirstMatchFound(Ordered(rules), ip);
    var i := if ip.family.V4? then |rules| else |rules| + 1;
    assert Contains(Ordered(rules)[i].target, ip);
  }

  // The rule the scan stops at is a most specific match, and Allow if any such is Allow.
  lemma ScanFindsMostSpecific(rules: seq<Rule>, ip: IpAddr, rule: Rule)
    requires Matches(rules, ip, rule)
    ensures var found := FirstMatch(Ordered(rules), ip);
            && found.Some? && found.value.0 == found.value.1.action
            && MostSpecific(rules, ip, found.value.1)
            && (MostSpecific(rules, ip, rule) && rule.action.Allow? ==> found.value.0.Allow?)
  {
    var order := SortIndices(rules, |rules|);
    SortIndicesSorts(rules, |rules|);
    var k := FirstMatchFound(Ordered(rules), ip);
    forall r | Matches(rules, ip, r)
      ensures k < |order| && Key(r) <= Key(rules[order[k]])
    {
      var i :| 0 <= i < |rules| && rules[i] == r;
      assert i in order;
      var x :| 0 <= x < |order| && order[x] == i;
      assert Ordered(rules)[x] == r;
      assert k <= x;
    }
    assert Ordered(rules)[k] == rules[order[k]];
  }

  // The sorted scan decides by longest prefix, Allow before Deny, default Deny.
  lemma VerdictIsLongestPrefix(rules: seq<Rule>, ip: IpAddr)
    ensures Verdict(rules, ip).Allow? <==> Allows(rules, ip)
  {
    ScanIsTotal(rules, ip);
    if rule :| Matches(rules, ip, rule) {
      ScanFindsMostSpecific(rules, ip, rule);
      var found := FirstMatch(Ordered(rules), ip).value.1;
      if Allows(rules, ip) {
        var best :| MostSpecific(rules, ip, best) && best.action.Allow?;
        ScanFindsMostSpecific(rules, ip, best);
      }
    } else {
      NothingMatches(rules, ip);
    }
  }

  lemma NothingMatches(rules: seq<Rule>, ip: IpAddr)
    requires forall r :: !Matches(rules, ip, r)
    ensures Verdict(rules, ip) == Deny
  {
    var k := FirstMatchFound(Ordered(rules), ip);
    ScanIsTotal(rules, ip);
    var order := SortIndices(rules, |rules|);
    if k < |order| {
      assert Ordered(rules)[k] == rules[order[k]];
      assert Matches(rules, ip, rules[order[k]]);
    }
  }

  // The decision depends on the set of rules only: not on their order, nor on repetitions.
  lemma VerdictIgnoresOrder(rules: seq<Rule>, rules': seq<Rule>, ip: IpAddr)
    requires forall r :: r in rules <==> r in rules'
    ensures Verdict(rules, ip) == Verdict(rules', ip)
  {
    VerdictIsLongestPrefix(rules, ip);
    VerdictIsLongestPrefix(rules', ip);
    forall r
      ensures MostSpecific(rules, ip, r) <==> MostSpecific(rules', ip, r)
    {
      assert forall q :: Matches(rules, ip, q) <==> Matches(rules', ip, q);
    }
  }

  // ----- changing the rules -----

  function Added(rules: seq<Rule>, rule: Rule): seq<Rule>
  {
    if rule in rules then rules else rules + [rule]
  }

  function Removed(rules: seq<Rule>, rule: Rule): seq<Rule>
  {
    if rules == [] then []
    else (if rules[0] == rule then [] else [rules[0]]) + Removed(rules[1..], rule)
  }

  // A new rule decides inside its network where no more specific rule matches, and nowhere else.
  lemma AddIsLocal(rules: seq<Rule>, rule: Rule, ip: IpAddr)
    requires Verdict(Added(rules, rule), ip) != Verdict(rules, ip)
    ensures Contains(rule.target, ip)
    ensures forall r :: Matches(rules, ip, r) ==> r.target.prefix <= rule.target.prefix
    ensures Verdict(Added(rules, rule), ip) == rule.action
  {
    VerdictIsLongestPrefix(rules, ip);
    VerdictIsLongestPrefix(Added(rules, rule), ip);
    assert forall r :: Matches(Added(rules, rule), ip, r) <==>
                         Matches(rules, ip, r) || (r == rule && Contains(rule.target, ip));
  }

  lemma AddDecides(rules: seq<Rule>, rule: Rule, ip: IpAddr)
    requires Contains(rule.target, ip)
    requires forall r :: Matches(rules, ip, r) ==> r == rule || r.target.prefix < rule.target.prefix
    ensures Verdict(Added(rules, rule), ip) == rule.action
  {
    VerdictIsLongestPrefix(Added(rules, rule), ip);
    assert forall r :: Matches(Added(rules, rule), ip, r) <==> Matches(rules, ip, r) || r == rule;
    assert MostSpecific(Added(rules, rule), ip, rule);
  }

  lemma {:induction false} RemovedKeeps(rules: seq<Rule>, rule: Rule)
    ensures forall r :: r in Removed(rules, rule) <==> r in rules && r != rule
    ensures rule !in rules ==> Removed(rules, rule) == rules
  {
    if rules != [] {
      assert rules == [rules[0]] + rules[1..];
      RemovedKeeps(rules[1..], rule);
    }
  }

  lemma {:induction false} RemovedOfJoined(rules: seq<Rule>, more: seq<Rule>, rule: Rule)
    ensures Removed(rules + more, rule) == Removed(rules, rule) + Removed(more, rule)
  {
    if rules == [] {
      assert rules + more == more;
    } else {
      assert (rules + more)[1..] == rules[1..] + more;
      RemovedOfJoined(rules[1..], more, rule);
    }
  }

  // Removing a rule that was just added restores the list, order included.
  lemma AddThenRemove(rules: seq<Rule>, rule: Rule)
    requires rule !in rules
    ensures Removed(Added(rules, rule), rule) == rules
  {
    RemovedOfJoined(rules, [rule], rule);
    RemovedKeeps(rules, rule);
    assert Removed([rule], rule) == [];
  }

  // ALLOW:10.0.0.0/8 alone admits 10.1.2.3 and not 11.1.2.3; and with ALLOW:0.0.0.0/0 for everybody,
  // DENY:10.0.0.0/8 keeps 10.1.2.3 out.
  lemma PrivateNetwork()
    ensures var net: IpNet := Network(Ipv4(10, 0, 0, 0), 8);
            && Verdict([Rule(Allow, net)], Ipv4(10, 1, 2, 3)) == Allow
            && Verdict([Rule(Allow, net)], Ipv4(11, 1, 2, 3)) == Deny
            && Verdict([Rule(Allow, Anywhere(V4)), Rule(Deny, net)], Ipv4(10, 1, 2, 3)) == Deny
  {
    hide Verdict, Ipv4;
    var net: IpNet := Network(Ipv4(10, 0, 0, 0), 8);
    FirstOctetDecides(10, 0, 0, 0, 10, 1, 2, 3);
    FirstOctetDecides(10, 0, 0, 0, 11, 1, 2, 3);
    OneRule(Rule(Allow, net), Ipv4(10, 1, 2, 3));
    OneRule(Rule(Allow, net), Ipv4(11, 1, 2, 3));
    AddDecides([Rule(Allow, Anywhere(V4))], Rule(Deny, net), Ipv4(10, 1, 2, 3));
    assert Added([Rule(Allow, Anywhere(V4))], Rule(Deny, net)) == [Rule(Allow, Anywhere(V4)), Rule(Deny, net)];
  }

  lemma OneRule(rule: Rule, ip: IpAddr)
    ensures Verdict([rule], ip) == if Contains(rule.target, ip) then rule.action else Deny
  {
    hide Contains, Verdict;
    VerdictIsLongestPrefix([rule], ip);
    if Contains(rule.target, ip) {
      assert MostSpecific([rule], ip, rule);
    }
  }

  class PeerFilter {
    var rules: seq<Rule>

    constructor ()
      ensures rules == []
    {
      rules := [];
    }

    constructor NewAllowAny()
      ensures rules == [Rule(Allow, Anywhere(V4)), Rule(Allow, Anywhere(V6))]
    {
      rules := [];
      new;
      var _ := Add(Rule(Allow, Anywhere(V4)));
      assert Anywhere(V4).address.family != Anywhere(V6).address.family;
      var _ := Add(Rule(Allow, Anywhere(V6)));
    }

    method Add(rule: Rule) returns (added: bool)
      modifies this
      ensures rules == Added(old(rules), rule) && (added <==> rule !in old(rules))
    {
      if rule !in rules {
        rules := rules + [rule];
        added := true;
      } else {
        added := false;
      }
    }

    method Remove(rule: Rule)
      modifies this
      ensures rules == Removed(old(rules), rule)
      ensures forall r :: r in rules <==> r in old(rules) && r != rule
    {
      RemovedKeeps(rules, rule);
      rules := Removed(rules, rule);
    }

    method Iter() returns (ordered: seq<Rule>)
      ensures ordered == Ordered(rules)
    {
      var indices := SortIndices(rules, |rules|);
      ordered := Select(rules, indices);
      ordered := ordered + [Rule(Deny, Anywhere(V4))] + [Rule(Deny, Anywhere(V6))];
    }

    method EvaluateWithContext(ip: IpAddr) returns (found: Option<(Action, Rule)>)
      ensures found == FirstMatch(Ordered(rules), ip) && found.Some?
    {
      ScanIsTotal(rules, ip);
      var ordered := Iter();
      for i := 0 to |ordered|
        invariant FirstMatch(ordered[i..], ip) == FirstMatch(ordered, ip)
      {
        assert ordered[i..][1..] == ordered[i + 1..];
        var action := Evaluate(ordered[i], ip);
        if action.Some? {
          return Some((action.value, ordered[i]));
        }
      }
      found := None;
    }

    // The filter admits an address exactly if its most specific matching rules include an Allow.
    method EvaluateAddress(ip: IpAddr) returns (action: Action)
      ensures action == Verdict(rules, ip) && (action.Allow? <==> Allows(rules, ip))
    {
      VerdictIsLongestPrefix(rules, ip);
      var found := EvaluateWithContext(ip);
      if found.Some? {
        return found.value.0;
      }
      action := Deny;
    }
  }

  // ----- rule text -----

  // Network text and upper-casing, as the libraries provide them.
  datatype TextLibrary = TextLibrary(show: IpNet -> string, parse: string -> Option<IpNet>, upper: string -> string)

  function Format(lib: TextLibrary, rule: Rule): string
  {
    (if rule.action.Allow? then "ALLOW" else "DENY") + ":" + lib.show(rule.target)
  }

  function FromString(lib: TextLibrary, text: string): Option<Rule>
  {
    var n := IndexOf(text, ':');
    if n == |text| then None
    else
      var word := lib.upper(text[..n]);
      if word != "ALLOW" && word != "DENY" then None
      else match lib.parse(text[n + 1..])
        case None => None
        case Some(target) => Some(Rule(if word == "ALLOW" then Allow else Deny, target))
  }

  // A rule survives being written and read, whatever colons its network text contains.
  lemma RuleRoundTrip(lib: TextLibrary, rule: Rule)
    requires lib.upper("ALLOW") == "ALLOW" && lib.upper("DENY") == "DENY"
    requires lib.parse(lib.show(rule.target)) == Some(rule.target)
    ensures FromString(lib, Format(lib, rule)) == Some(rule)
  {
    var word := if rule.action.Allow? then "ALLOW" else "DENY";
    var text := Format(lib, rule);
    assert |"ALLOW"| == 5 && |"DENY"| == 4;
    assert text[..|word|] == word && text[|word|] == ':' && text[|word| + 1..] == lib.show(rule.target);
    IndexOfUnique(text, ':', |word|);
  }

  // What text is a rule: a word for the action before the first colon, in any case, and a network
  // behind it; text without a colon is none.
  lemma FromStringIff(lib: TextLibrary, word: string, net: string, rule: Rule)
    requires ':' !in word
    ensures FromString(lib, word + ":" + net) == Some(rule) <==>
            lib.upper(word) == (if rule.action.Allow? then "ALLOW" else "DENY") && lib.parse(net) == Some(rule.target)
    ensures FromString(lib, word) == None
  {
    var text := word + ":" + net;
    assert text[..|word|] == word && text[|word| + 1..] == net;
    IndexOfUnique(text, ':', |word|);
    assert word[..|word|] == word;
    IndexOfUnique(word, ':', |word|);
    assert "ALLOW"[0] != "DENY"[0];
  }
}
