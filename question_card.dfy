/** components/QuestionCard.tsx: the badge a question card shows, chosen by keywords in the
    question, and the card's shortened title. */
module QuestionCard {
  import opened Wrappers
  import opened Seqs
  import opened Text

  datatype Badge = Badge(icon: string, keyword: string)

  /** Keywords (all lower case) and the badge they select. */
  datatype KeywordGroup = KeywordGroup(words: seq<string>, badge: Badge)

  /** The groups in the order they are tried. */
  const Groups: seq<KeywordGroup> := [
    KeywordGroup(["클라우드", "cloud", "aws", "azure", "gcp"], Badge("\U{2601}\U{FE0F}", "클라우드")),
    KeywordGroup(["보안", "security", "iam", "인증", "권한"], Badge("\U{1F512}", "보안")),
    KeywordGroup(["네트워크", "network", "tcp", "ip", "dns"], Badge("\U{1F310}", "네트워크")),
    KeywordGroup(["데이터베이스", "database", "db", "sql"], Badge("\U{1F5C4}\U{FE0F}", "DB")),
    KeywordGroup(["컨테이너", "container", "docker", "kubernetes"], Badge("\U{1F4E6}", "컨테이너")),
    KeywordGroup(["모니터링", "monitoring", "로그", "log"], Badge("\U{1F4CA}", "모니터링")),
    KeywordGroup(["배포", "deploy", "cicd", "pipeline"], Badge("\U{1F680}", "배포")),
    KeywordGroup(["리눅스", "linux", "명령어", "command"], Badge("\U{1F427}", "Linux")),
    KeywordGroup(["자바", "java", "jvm", "spring"], Badge("\U{2615}", "Java")),
    KeywordGroup(["성능", "performance", "최적화", "optimization"], Badge("\U{26A1}", "성능")),
    KeywordGroup(["아키텍처", "architecture", "설계", "design"], Badge("\U{1F3D7}\U{FE0F}", "아키텍처")),
    KeywordGroup(["api", "rest", "http"], Badge("\U{1F517}", "API"))
  ]

  /** The badge when no group matches. */
  const Fallback: Badge := Badge("\U{2753}", "기타")

  /** `words.some(word => s.includes(word))`. */
  predicate AnyContained(s: string, words: seq<string>) {
    words != [] && (Contains(s, words[0]) || AnyContained(s, words[1..]))
  }

  lemma {:induction false} AnyContainedIff(s: string, words: seq<string>)
    ensures AnyContained(s, words) <==> exists i :: 0 <= i < |words| && Contains(s, words[i])
  {
    if words != [] {
      AnyContainedIff(s, words[1..]);
      if exists i :: 0 <= i < |words| && Contains(s, words[i]) {
        var i :| 0 <= i < |words| && Contains(s, words[i]);
        if i > 0 {
          assert words[1..][i - 1] == words[i];
        }
      }
      if exists i :: 0 <= i < |words[1..]| && Contains(s, words[1..][i]) {
        var i :| 0 <= i < |words[1..]| && Contains(s, words[1..][i]);
        assert words[i + 1] == words[1..][i];
      }
    }
  }

  /** The loop over the groups: the first group with a word in `s`. */
  function FirstMatch(gs: seq<KeywordGroup>, s: string): Badge {
    if gs == [] then Fallback
    else if AnyContained(s, gs[0].words) then gs[0].badge
    else FirstMatch(gs[1..], s)
  }

  /** getKeywordIcon. */
  function GetKeywordIcon(question: string): Badge {
    FirstMatch(Groups, ToLower(question))
  }

  /** The group tried first among those matching `s`. */
  function MatchIndex(gs: seq<KeywordGroup>, s: string): Option<nat> {
    FirstIndex(gs, (g: KeywordGroup) => AnyContained(s, g.words))
  }

  /** The loop picks the badge of the first matching group, and the fallback when none matches. */
  lemma {:induction false} FirstMatchSpec(gs: seq<KeywordGroup>, s: string)
    ensures FirstMatch(gs, s) == match MatchIndex(gs, s)
      case None => Fallback
      case Some(i) => gs[i].badge
  {
    if gs != [] && !AnyContained(s, gs[0].words) {
      FirstMatchSpec(gs[1..], s);
      assert MatchIndex(gs, s) == match MatchIndex(gs[1..], s)
        case None => None
        case Some(i) => Some(i + 1);
    }
  }

  /** The badge shown is the fallback or the badge of one of the groups. */
  lemma IconIsKnown(question: string)
    ensures GetKeywordIcon(question) == Fallback
      || exists i :: 0 <= i < |Groups| && GetKeywordIcon(question) == Groups[i].badge
  {
    FirstMatchSpec(Groups, ToLower(question));
  }

  /** Letter case does not matter. */
  lemma IconIgnoresCase(question: string)
    ensures GetKeywordIcon(ToLower(question)) == GetKeywordIcon(question)
  {
    ToLowerIdempotent(question);
  }

  /** Matching is by substring, so "pipeline", listed for the deploy badge, never decides the
      badge: it contains "ip", a network keyword, and the network group is tried earlier. */
  lemma PipelineShadowed(question: string)
    requires Contains(ToLower(question), "pipeline")
    ensures GetKeywordIcon(question) in [Groups[0].badge, Groups[1].badge, Groups[2].badge]
  {
    var s := ToLower(question);
    PipelineContainsIp(s);
    var network := Groups[2].words;
    assert network[3] == "ip";
    AnyContainedIff(s, network);
    MatchedByOrBefore(Groups, s, 2);
  }

  lemma PipelineContainsIp(s: string)
    requires Contains(s, "pipeline")
    ensures Contains(s, "ip")
  {
    assert OccursAt("pipeline", "ip", 1);
    ContainsAt("pipeline", "ip");
    ContainsTrans(s, "pipeline", "ip");
  }

  /** When group `k` matches, the badge is that of group `k` or of an earlier one. */
  lemma {:induction false} MatchedByOrBefore(gs: seq<KeywordGroup>, s: string, k: nat)
    requires k < |gs| && AnyContained(s, gs[k].words)
    ensures exists i :: 0 <= i <= k && FirstMatch(gs, s) == gs[i].badge
  {
    if !AnyContained(s, gs[0].words) {
      assert k > 0 && gs[1..][k - 1] == gs[k];
      MatchedByOrBefore(gs[1..], s, k - 1);
      var i :| 0 <= i <= k - 1 && FirstMatch(gs[1..], s) == gs[1..][i].badge;
      assert FirstMatch(gs, s) == gs[i + 1].badge;
    } else {
      assert FirstMatch(gs, s) == gs[0].badge;
    }
  }

  /** The title shown on the card: at most 60 characters, with "..." when cut. */
  function DisplayTitle(question: string): (t: string)
    ensures |t| <= 63
    ensures |question| <= 60 ==> t == question
    ensures |question| > 60 ==> |t| == 63 && question[..60] <= t && t[60..] == "..."
  {
    if |question| > 60 then question[..60] + "..." else question
  }
}
