/** The refs that name mail messages, `<agent>/<user|agent>/<id>`, and their order. */
module MailRefs {
  import opened Util
  import opened Text
  import opened Reading

  datatype Ref = Ref(agent: string, side: string, id: string)

  predicate HasDots(s: string)
  {
    exists i :: 0 <= i < |s| - 1 && s[i] == '.' && s[i + 1] == '.'
  }

  /** The parts of a ref, when `raw` is one. */
  function ParseRef(raw: string): Option<Ref>
  {
    var parts := Split(raw, '/');
    if |parts| != 3 || (parts[1] != "user" && parts[1] != "agent") then None
    else if parts[0] == "" || parts[2] == "" || HasDots(parts[2]) || '\\' in parts[2] || '\0' in parts[2] then None
    else Some(Ref(parts[0], parts[1], parts[2]))
  }

  /** Negative, zero or positive as `a` is before, the same as or after `b`. */
  function ByName(a: string, b: string): int
  {
    if a == b then 0 else if Less(a, b) then -1 else 1
  }

  /**
   Three keys, the first that differs deciding: agent, side with `user` first, id. Strings that are
   no refs go by name.
   */
  function CompareRefs(a: string, b: string): int
  {
    var left, right := ParseRef(a), ParseRef(b);
    if left.None? || right.None? then ByName(a, b)
    else if left.value.agent != right.value.agent then ByName(left.value.agent, right.value.agent)
    else if left.value.side != right.value.side then ByName(right.value.side, left.value.side)
    else ByName(left.value.id, right.value.id)
  }

  /** Different refs have different parts. */
  lemma ParseInjective(a: string, b: string)
    requires ParseRef(a).Some? && ParseRef(a) == ParseRef(b)
    ensures a == b
  {
    JoinSplit(a, '/');
    JoinSplit(b, '/');
    assert Split(a, '/') == Split(b, '/');
  }

  /** The lesser agent comes first; of one agent, side `user`; on one side, the lesser id. */
  ghost predicate RefBefore(a: string, b: string)
    requires ParseRef(a).Some? && ParseRef(b).Some?
  {
    var x, y := ParseRef(a).value, ParseRef(b).value;
    || Less(x.agent, y.agent)
    || (x.agent == y.agent && x.side == "user" && y.side == "agent")
    || (x.agent == y.agent && x.side == y.side && Less(x.id, y.id))
  }

  lemma CompareRefsIs(a: string, b: string)
    requires ParseRef(a).Some? && ParseRef(b).Some?
    ensures CompareRefs(a, b) < 0 <==> RefBefore(a, b)
  {
    var x, y := ParseRef(a).value, ParseRef(b).value;
    LessIrreflexive(x.agent);
    LessIrreflexive(x.id);
    AgentBeforeUser();
    LessAsymmetric("agent", "user");
  }

  lemma ByNameOrder(a: string, b: string)
    ensures ByName(a, b) == -ByName(b, a)
  {
    if a != b {
      LessTotal(a, b);
      if Less(a, b) {
        LessAsymmetric(a, b);
      }
    }
  }

  /** On refs, the comparison is a strict total order, and zero for a ref and itself alone. */
  lemma CompareRefsTotal(a: string, b: string)
    requires ParseRef(a).Some? && ParseRef(b).Some?
    ensures CompareRefs(a, b) == -CompareRefs(b, a)
    ensures CompareRefs(a, b) == 0 <==> a == b
  {
    var left, right := ParseRef(a).value, ParseRef(b).value;
    ByNameOrder(left.agent, right.agent);
    ByNameOrder(left.side, right.side);
    ByNameOrder(left.id, right.id);
    if CompareRefs(a, b) == 0 {
      ParseInjective(a, b);
    }
  }

  lemma ByNameTransitive(a: string, b: string, c: string)
    requires ByName(a, b) < 0 && ByName(b, c) < 0
    ensures ByName(a, c) < 0
  {
    LessTransitive(a, b, c);
    LessAsymmetric(a, b);
    if a == c {
      LessAsymmetric(b, c);
    }
  }

  lemma CompareRefsTransitive(a: string, b: string, c: string)
    requires ParseRef(a).Some? && ParseRef(b).Some? && ParseRef(c).Some?
    requires CompareRefs(a, b) < 0 && CompareRefs(b, c) < 0
    ensures CompareRefs(a, c) < 0
  {
    var x, y, z := ParseRef(a).value, ParseRef(b).value, ParseRef(c).value;
    if x.agent != y.agent && y.agent != z.agent {
      ByNameTransitive(x.agent, y.agent, z.agent);
    } else if x.agent == y.agent == z.agent {
      if x.side != y.side && y.side != z.side {
        ByNameTransitive(z.side, y.side, x.side);
      } else if x.side == y.side == z.side {
        ByNameTransitive(x.id, y.id, z.id);
      }
    }
  }

  /** With a string that is no ref among them, such as one refused for its dots, the comparison can run in a circle. */
  lemma NotTransitiveOffRefs()
    ensures ParseRef("x/agent/2..").None?
    ensures CompareRefs("x/user/1", "x/agent/1") < 0
    ensures CompareRefs("x/agent/1", "x/agent/2..") < 0
    ensures CompareRefs("x/agent/2..", "x/user/1") < 0
  {
    DotsRefused();
    UserComesFirst();
    OneBeforeTwo();
    DotsBeforeUser();
    ByNameOff("x/agent/1", "x/agent/2..");
    ByNameOff("x/agent/2..", "x/user/1");
  }

  lemma ByNameOff(a: string, b: string)
    requires ParseRef(a).None? || ParseRef(b).None?
    ensures CompareRefs(a, b) == ByName(a, b)
  {
  }

  lemma UserComesFirst()
    ensures CompareRefs("x/user/1", "x/agent/1") < 0
  {
    ParsesAs("x", "user", "1");
    ParsesAs("x", "agent", "1");
    assert "x" + "/" + ("user" + "/" + "1") == "x/user/1";
    assert "x" + "/" + ("agent" + "/" + "1") == "x/agent/1";
    AgentBeforeUser();
  }

  lemma DotsRefused()
    ensures ParseRef("x/agent/2..").None?
  {
    assert "2.."[1] == '.' && "2.."[2] == '.';
    RefusedForDots("x", "agent", "2..");
    assert "x" + "/" + ("agent" + "/" + "2..") == "x/agent/2..";
  }

  lemma ThreeParts(agent: string, side: string, id: string)
    requires '/' !in agent && '/' !in side && '/' !in id
    ensures Split(agent + "/" + (side + "/" + id), '/') == [agent, side, id]
  {
    SplitAt('/', agent, side + "/" + id);
    SplitAt('/', side, id);
    SplitNone('/', id);
  }

  lemma RefusedForDots(agent: string, side: string, id: string)
    requires '/' !in agent && '/' !in side && '/' !in id && HasDots(id)
    ensures ParseRef(agent + "/" + (side + "/" + id)).None?
  {
    ThreeParts(agent, side, id);
  }

  lemma ParsesAs(agent: string, side: string, id: string)
    requires '/' !in agent && '/' !in side && '/' !in id && agent != "" && id != ""
    requires (side == "user" || side == "agent") && !HasDots(id) && '\\' !in id && '\0' !in id
    ensures ParseRef(agent + "/" + (side + "/" + id)) == Some(Ref(agent, side, id))
  {
    ThreeParts(agent, side, id);
  }

  /** What a ref is, and what its parts are. */
  lemma ParseRefIff(raw: string, parts: Ref)
    ensures ParseRef(raw) == Some(parts) <==>
      && raw == parts.agent + "/" + (parts.side + "/" + parts.id)
      && '/' !in parts.agent && '/' !in parts.id && parts.agent != "" && parts.id != ""
      && (parts.side == "user" || parts.side == "agent")
      && (forall i :: 0 <= i < |parts.id| - 1 ==> !(parts.id[i] == '.' && parts.id[i + 1] == '.'))
      && '\\' !in parts.id && '\0' !in parts.id
  {
    if ParseRef(raw) == Some(parts) {
      var all := Split(raw, '/');
      JoinSplit(raw, '/');
      assert all == [parts.agent] + ([parts.side] + [parts.id]);
      JoinCons(parts.agent, [parts.side] + [parts.id], '/');
      JoinCons(parts.side, [parts.id], '/');
      assert parts.agent == all[0] && parts.id == all[2];
      SplitLacks(raw, '/', '/', parts.agent);
      SplitLacks(raw, '/', '/', parts.id);
    }
    if raw == parts.agent + "/" + (parts.side + "/" + parts.id) && '/' !in parts.agent && '/' !in parts.id
      && (parts.side == "user" || parts.side == "agent") {
      ThreeParts(parts.agent, parts.side, parts.id);
    }
  }

  lemma AgentBeforeUser()
    ensures Less("agent", "user") && "agent" != "user"
  {
    assert "agent"[0] == 'a' && "user"[0] == 'u';
  }

  lemma SharedStart(c: char, a: string, b: string)
    ensures Less([c] + a, [c] + b) <==> Less(a, b)
  {
    assert ([c] + a)[1..] == a && ([c] + b)[1..] == b;
  }

  lemma {:induction false} SharedPrefix(start: string, a: string, b: string)
    ensures Less(start + a, start + b) <==> Less(a, b)
  {
    if start == [] {
      assert start + a == a && start + b == b;
    } else {
      SharedPrefix(start[1..], a, b);
      SharedStart(start[0], start[1..] + a, start[1..] + b);
      assert start + a == [start[0]] + (start[1..] + a) && start + b == [start[0]] + (start[1..] + b);
    }
  }

  lemma OneBeforeTwo()
    ensures Less("x/agent/1", "x/agent/2..") && "x/agent/1" != "x/agent/2.."
  {
    SharedPrefix("x/agent/", "1", "2..");
    assert "x/agent/" + "1" == "x/agent/1" && "x/agent/" + "2.." == "x/agent/2..";
    assert "1"[0] == '1' && "2.."[0] == '2';
    assert |"x/agent/1"| != |"x/agent/2.."|;
  }

  lemma DotsBeforeUser()
    ensures Less("x/agent/2..", "x/user/1") && "x/agent/2.." != "x/user/1"
  {
    SharedPrefix("x/", "agent/2..", "user/1");
    assert "x/" + "agent/2.." == "x/agent/2.." && "x/" + "user/1" == "x/user/1";
    assert "agent/2.."[0] == 'a' && "user/1"[0] == 'u';
    assert |"x/agent/2.."| != |"x/user/1"|;
  }
}
