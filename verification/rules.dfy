/** The inbound text-message rules (Unknown.js:127-158). Each rule that
    fires schedules a reply; the timer and `Math.random` are not run but
    described: a reply carries its delay, and the random draw is a
    parameter. */
module MessageRules {
  import opened Text

  const JacoDelayMs: nat := 30000
  const PixDelayMs: nat := 10000
  const JacoReply: string := "Oi"

  /** The configured pix answers (`respostasPix`). */
  const PixResponses: seq<string> :=
    ["Chave Pix Telefone: 85985304415 - Nome: Jaco Leone Amorim Melo - Inst: Caixa Economica Federal"]

  /** A reply to `chat`, sent `delayMs` milliseconds after the message arrived. */
  datatype ScheduledReply = ScheduledReply(chat: string, text: string, delayMs: nat)

  /** `a` equals `b` once both are lower-cased, character by character. */
  predicate EqualsIgnoreCase(a: string, b: string) {
    |a| == |b| && forall i :: 0 <= i < |a| ==> LowerChar(a[i]) == LowerChar(b[i])
  }

  /** `pat` matches somewhere in `s` ignoring case: the unanchored
      case-insensitive regex test. */
  ghost predicate MatchesIgnoreCase(s: string, pat: string) {
    exists j: nat :: MatchesAt(s, pat, j)
  }

  predicate MatchesAt(s: string, pat: string, j: nat) {
    j + |pat| <= |s| && forall k :: 0 <= k < |pat| ==> LowerChar(s[j + k]) == LowerChar(pat[k])
  }

  /** `t` is already lower case. */
  predicate IsLower(t: string) {
    forall i :: 0 <= i < |t| ==> LowerChar(t[i]) == t[i]
  }

  /** Lower-casing `s` gives the lower-case `t` exactly when `s` equals `t`
      ignoring case. */
  lemma LowerEqualsIff(s: string, t: string)
    requires IsLower(t)
    ensures Lower(s) == t <==> EqualsIgnoreCase(s, t)
  {
    if EqualsIgnoreCase(s, t) {
      forall i | 0 <= i < |t| ensures Lower(s)[i] == t[i] {
        assert Lower(s)[i] == LowerChar(s[i]);
      }
    }
    if Lower(s) == t {
      forall i | 0 <= i < |s| ensures LowerChar(s[i]) == LowerChar(t[i]) {
        assert Lower(s)[i] == LowerChar(s[i]);
      }
    }
  }

  /** The lower-cased `s` contains the lower-case `pat` exactly when `pat`
      matches somewhere in `s` ignoring case. */
  lemma ContainsLowerIff(s: string, pat: string)
    requires IsLower(pat)
    ensures Contains(Lower(s), pat) <==> MatchesIgnoreCase(s, pat)
  {
    var l := Lower(s);
    forall j: nat
      ensures OccursAt(l, pat, j) <==> MatchesAt(s, pat, j)
    {
      if j + |pat| <= |s| {
        if OccursAt(l, pat, j) {
          forall k | 0 <= k < |pat| ensures LowerChar(s[j + k]) == LowerChar(pat[k]) {
            assert l[j..j + |pat|][k] == l[j + k];
          }
        }
        if MatchesAt(s, pat, j) {
          assert l[j..j + |pat|] == pat by {
            forall k | 0 <= k < |pat| ensures l[j..j + |pat|][k] == pat[k] {
              assert l[j + k] == LowerChar(s[j + k]);
            }
          }
        }
      }
    }
    if Contains(l, pat) {
      assert MatchesAt(s, pat, IndexOf(l, pat).value);
    }
  }

  /** The greeting rule's test (line 134): the body, untrimmed, equals
      "jaco" or lower-cases to it. */
  function JacoRuleFires(body: string): (r: bool)
    ensures r <==> EqualsIgnoreCase(body, "jaco")
  {
    assert IsLower("jaco") by {
      assert forall c :: c in "jaco" ==> LowerChar(c) == c;
    }
    LowerEqualsIff(body, "jaco");
    body == "jaco" || Lower(body) == "jaco"
  }

  // The pix rule: the case-insensitive regex `.*pix.*` tested against the body (lines 142-143).
  function PixRuleFires(body: string): (r: bool)
    ensures r <==> MatchesIgnoreCase(body, "pix")
  {
    assert IsLower("pix") by {
      assert forall c :: c in "pix" ==> LowerChar(c) == c;
    }
    ContainsLowerIff(body, "pix");
    Contains(Lower(body), "pix")
  }

  /** No message satisfies both rules: "jaco" contains no "pix". */
  lemma RulesExclusive(body: string)
    ensures !(JacoRuleFires(body) && PixRuleFires(body))
  {
    if JacoRuleFires(body) {
      var l := Lower(body);
      assert l == "jaco";
      if IndexOf(l, "pix").Some? {
        JacoHasNoPixAt(IndexOf(l, "pix").value);
        assert false;
      }
    }
  }

  lemma JacoHasNoPixAt(j: nat)
    ensures !OccursAt("jaco", "pix", j)
  {
    if j + 3 <= 4 {
      assert "jaco"[j..j + 3][0] == "jaco"[j];
      assert j == 0 || j == 1;
    }
  }

  /** Leading or trailing blanks keep the greeting rule from firing. */
  lemma NoTrimming()
    ensures !JacoRuleFires(" jaco") && !JacoRuleFires("jaco ")
    ensures JacoRuleFires("JaCo")
  {
    assert |Lower(" jaco")| == 5;
    assert |Lower("jaco ")| == 5;
  }

  /** `Math.floor(u * n)` for a draw `u` of `Math.random()`. */
  function PickIndex(u: real, n: nat): (k: nat)
    requires 0.0 <= u < 1.0 && 0 < n
    ensures k < n
    ensures (k as real) <= u * (n as real) < (k + 1) as real
  {
    assert u * (n as real) < n as real by {
      assert (1.0 - u) * (n as real) > 0.0;
    }
    (u * (n as real)).Floor
  }

  /** The replies scheduled for one text message from `chat`; `u` is the
      random draw taken when the pix timer fires. */
  function OnMessage(chat: string, body: string, u: real): (replies: seq<ScheduledReply>)
    requires 0.0 <= u < 1.0
    ensures |replies| <= 1
    ensures replies == [] <==> !JacoRuleFires(body) && !PixRuleFires(body)
    ensures JacoRuleFires(body) <==> |replies| == 1 && replies[0].delayMs == JacoDelayMs
    ensures JacoRuleFires(body) ==> replies == [ScheduledReply(chat, JacoReply, JacoDelayMs)]
    ensures PixRuleFires(body) <==>
      |replies| == 1 && replies[0].delayMs == PixDelayMs && replies[0].chat == chat
    ensures PixRuleFires(body) ==> replies[0].text in PixResponses
  {
    RulesExclusive(body);
    var jaco := if JacoRuleFires(body) then [ScheduledReply(chat, JacoReply, JacoDelayMs)] else [];
    var pix :=
      if PixRuleFires(body) then [ScheduledReply(chat, PixResponses[PickIndex(u, |PixResponses|)], PixDelayMs)]
      else [];
    jaco + pix
  }

  /** With one configured answer, the pix reply is always that answer,
      whatever the draw. */
  lemma PixReplyIsFixed(chat: string, body: string, u: real)
    requires 0.0 <= u < 1.0
    requires PixRuleFires(body)
    ensures OnMessage(chat, body, u) == [ScheduledReply(chat, PixResponses[0], PixDelayMs)]
  {
  }

  /** "JACO" gets exactly the greeting; "my pix key please" exactly one pix answer. */
  lemma Scenarios(u: real)
    requires 0.0 <= u < 1.0
    ensures OnMessage("c", "JACO", u) == [ScheduledReply("c", "Oi", 30000)]
    ensures OnMessage("c", "my pix key please", u) == [ScheduledReply("c", PixResponses[0], 10000)]
  {
    var l := Lower("my pix key please");
    assert l[3..6] == "pix";
    assert OccursAt(l, "pix", 3);
  }
}
