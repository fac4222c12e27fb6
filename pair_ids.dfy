/** The ids the lobby derives from an unordered pair of usernames: the pair is sorted so that
    either user computes the same id, then joined into "game-{p1}-{p2}" for a game and
    "{p1}_{p2}" for a chat. */
module PairIds {
  import opened Users

  /** Python's string order: lexicographic by code point, a proper prefix first. */
  predicate LexLe(a: string, b: string)
  {
    if a == [] then true
    else if b == [] then false
    else if a[0] != b[0] then a[0] < b[0]
    else LexLe(a[1..], b[1..])
  }

  lemma {:induction false} LexLeTotal(a: string, b: string)
    ensures LexLe(a, b) || LexLe(b, a)
  {
    if a != [] && b != [] && a[0] == b[0] {
      LexLeTotal(a[1..], b[1..]);
    }
  }

  lemma {:induction false} LexLeAntisymmetric(a: string, b: string)
    requires LexLe(a, b) && LexLe(b, a)
    ensures a == b
  {
    if a != [] && b != [] {
      LexLeAntisymmetric(a[1..], b[1..]);
      assert a == [a[0]] + a[1..] && b == [b[0]] + b[1..];
    }
  }

  /** sorted([a, b]) */
  function SortedPair(a: User, b: User): (User, User)
  {
    if LexLe(a, b) then (a, b) else (b, a)
  }

  /** The sorted pair holds the two users, smaller first, whichever order they come in. */
  lemma SortedPairProperties(a: User, b: User)
    ensures var (p1, p2) := SortedPair(a, b);
      && ((p1, p2) == (a, b) || (p1, p2) == (b, a))
      && LexLe(p1, p2)
      && SortedPair(b, a) == (p1, p2)
  {
    LexLeTotal(a, b);
    if LexLe(a, b) && LexLe(b, a) {
      LexLeAntisymmetric(a, b);
    }
  }

  // ---------------------------------------------------------------------------------------
  // The ids as written

  function GameIdFor(a: User, b: User): string
  {
    var (p1, p2) := SortedPair(a, b);
    "game-" + p1 + "-" + p2
  }

  function ChatIdFor(a: User, b: User): string
  {
    var (p1, p2) := SortedPair(a, b);
    p1 + "_" + p2
  }

  /** Both users of a pair compute the same game id and the same chat id. */
  lemma IdsSymmetric(a: User, b: User)
    ensures GameIdFor(a, b) == GameIdFor(b, a)
    ensures ChatIdFor(a, b) == ChatIdFor(b, a)
  {
    SortedPairProperties(a, b);
  }

  /** Usernames may themselves contain "-", so two different pairs can share a game id:
      ("a-b", "c") and ("a", "b-c") both give "game-a-b-c". */
  lemma GameIdsCollide()
    ensures {"a-b", "c"} != {"a", "b-c"} && GameIdFor("a-b", "c") == GameIdFor("a", "b-c") == "game-a-b-c"
  {
    assert LexLe("a-b", "c") && LexLe("a", "b-c");
    assert "a-b" !in {"a", "b-c"};
  }

  /** Usernames may themselves contain "_", so two different pairs can share a chat id:
      ("a_b", "c") and ("a", "b_c") both give "a_b_c". */
  lemma ChatIdsCollide()
    ensures {"a_b", "c"} != {"a", "b_c"} && ChatIdFor("a_b", "c") == ChatIdFor("a", "b_c") == "a_b_c"
  {
    assert LexLe("a_b", "c") && LexLe("a", "b_c");
    assert "a_b" !in {"a", "b_c"};
  }

  // ---------------------------------------------------------------------------------------
  // Ids that tell pairs apart

  /** The separator of the corrected ids; Django's default username validator admits only
      letters, digits and "@", ".", "+", "-", "_", so no username contains it. */
  const Sep: char := ':'

  predicate NoSep(u: User)
  {
    forall i :: 0 <= i < |u| ==> u[i] != Sep
  }

  function SafeGameId(a: User, b: User): string
  {
    var (p1, p2) := SortedPair(a, b);
    "game" + [Sep] + p1 + [Sep] + p2
  }

  function SafeChatId(a: User, b: User): string
  {
    var (p1, p2) := SortedPair(a, b);
    p1 + [Sep] + p2
  }

  /** The position of the first separator, or the length when there is none. */
  function FirstSepIndex(s: string): (i: nat)
    ensures i <= |s|
  {
    if s == [] || s[0] == Sep then 0 else 1 + FirstSepIndex(s[1..])
  }

  lemma {:induction false} FirstSepOfJoin(p1: string, p2: string)
    requires NoSep(p1)
    ensures FirstSepIndex(p1 + [Sep] + p2) == |p1|
  {
    var s := p1 + [Sep] + p2;
    if p1 != [] {
      assert s[0] == p1[0] && p1[0] != Sep;
      assert s[1..] == p1[1..] + [Sep] + p2;
      FirstSepOfJoin(p1[1..], p2);
    }
  }

  /** Splitting at the first separator recovers both halves. */
  lemma JoinInjective(p1: string, p2: string, q1: string, q2: string)
    requires NoSep(p1) && NoSep(q1)
    requires p1 + [Sep] + p2 == q1 + [Sep] + q2
    ensures p1 == q1 && p2 == q2
  {
    var s := p1 + [Sep] + p2;
    FirstSepOfJoin(p1, p2);
    FirstSepOfJoin(q1, q2);
    assert p1 == s[..|p1|] && q1 == s[..|q1|];
    assert p2 == s[|p1| + 1..] && q2 == s[|q1| + 1..];
  }

  /** Two pairs sort to the same pair exactly when they hold the same users. */
  lemma SortedPairsEqual(a: User, b: User, c: User, d: User)
    ensures SortedPair(a, b) == SortedPair(c, d) <==> {a, b} == {c, d}
  {
    SortedPairProperties(a, b);
    SortedPairProperties(c, d);
    if {a, b} == {c, d} {
      assert a in {c, d} && b in {c, d} && c in {a, b} && d in {a, b};
      if a == b {
        assert c == a && d == a;
      } else if a == c {
        assert b == d;
      } else {
        assert a == d && b == c;
      }
    }
  }

  /** The corrected chat ids stay symmetric and tell every two unordered pairs apart. */
  lemma SafeChatIdCharacterize(a: User, b: User, c: User, d: User)
    requires NoSep(a) && NoSep(b) && NoSep(c) && NoSep(d)
    ensures SafeChatId(a, b) == SafeChatId(b, a)
    ensures SafeChatId(a, b) == SafeChatId(c, d) <==> {a, b} == {c, d}
  {
    SortedPairProperties(a, b);
    SortedPairProperties(c, d);
    SortedPairsEqual(a, b, c, d);
    var (p1, p2) := SortedPair(a, b);
    var (q1, q2) := SortedPair(c, d);
    if SafeChatId(a, b) == SafeChatId(c, d) {
      JoinInjective(p1, p2, q1, q2);
    }
  }

  /** The corrected game ids stay symmetric and tell every two unordered pairs apart. */
  lemma SafeGameIdCharacterize(a: User, b: User, c: User, d: User)
    requires NoSep(a) && NoSep(b) && NoSep(c) && NoSep(d)
    ensures SafeGameId(a, b) == SafeGameId(b, a)
    ensures SafeGameId(a, b) == SafeGameId(c, d) <==> {a, b} == {c, d}
  {
    SafeChatIdCharacterize(a, b, c, d);
    assert SafeGameId(a, b) == "game" + [Sep] + SafeChatId(a, b);
    assert SafeGameId(b, a) == "game" + [Sep] + SafeChatId(b, a);
    assert SafeGameId(c, d) == "game" + [Sep] + SafeChatId(c, d);
    if SafeGameId(a, b) == SafeGameId(c, d) {
      assert SafeGameId(a, b)[5..] == SafeChatId(a, b);
      assert SafeGameId(c, d)[5..] == SafeChatId(c, d);
    }
  }
}
