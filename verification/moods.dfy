/** The mood enumeration: its cases, texture names and colour table. */
module Moods {
  import opened HexColor
  import opened Sequences

  /**
   * The four declared moods, plus `Moodless`: the "no mood" a ball takes while
   * it is invincible. No obstacle segment or pickup ever carries `Moodless`.
   */
  datatype Mood = Happy | Angry | Sad | InLove | Moodless

  /** A declared case of the mood enumeration. */
  type ActiveMood = m: Mood | m != Moodless witness Happy

  /** `allCases`, in declaration order. */
  const AllCases: seq<Mood> := [Happy, Angry, Sad, InLove]

  /** `allCases` lists every declared case exactly once, and nothing else. */
  lemma AllCasesComplete()
    ensures |AllCases| == 4 && Distinct(AllCases)
    ensures forall m: Mood :: m in AllCases <==> m != Moodless
  {
  }

  function TextureName(m: ActiveMood): string
  {
    match m
    case Happy => "happy"
    case Angry => "angry"
    case Sad => "sad"
    case InLove => "inlove"
  }

  /** The background texture: the mood's texture name followed by `_bg`. */
  function BgTextureName(m: ActiveMood): (s: string)
    ensures |s| == |TextureName(m)| + 3
    ensures s[..|TextureName(m)|] == TextureName(m) && s[|TextureName(m)|..] == "_bg"
  {
    TextureName(m) + "_bg"
  }

  /** Different moods never share a texture, nor a background texture. */
  lemma TextureNamesDistinct(m: ActiveMood, n: ActiveMood)
    requires m != n
    ensures TextureName(m) != TextureName(n)
    ensures BgTextureName(m) != BgTextureName(n)
  {
  }

  /** The colour of a mood as a six-digit upper-case hexadecimal code. */
  function ColorHex(m: ActiveMood): (s: string)
    ensures |s| == 6 && AllUpperHex(s)
  {
    match m
    case Happy => "FFCF69"
    case Angry => "F3504C"
    case Sad => "65BAEE"
    case InLove => "FF5AA9"
  }

  /** Different moods have different colour codes. */
  lemma ColorHexDistinct(m: ActiveMood, n: ActiveMood)
    requires m != n
    ensures ColorHex(m) != ColorHex(n)
  {
  }

  /** `color`: the decoded colour code, which prints back as that same code. */
  function Color(m: ActiveMood): (c: Rgba)
    ensures c.a == 255
    ensures HexString(c) == ColorHex(m)
  {
    UpperSixDigitRoundTrip(ColorHex(m));
    Decode(ColorHex(m))
  }

  /** Two moods have the same colour only when they are the same mood. */
  lemma {:induction false} ColorInjective(m: ActiveMood, n: ActiveMood)
    ensures Color(m) == Color(n) <==> m == n
  {
    if m != n {
      ColorHexDistinct(m, n);
      assert HexString(Color(m)) != HexString(Color(n));
    }
  }

  /**
   * `MSMoodType.random()`: `allCases.randomElement() ?? .happy`, with the
   * random draw passed in as `pick`. The list is never empty, so the fallback
   * is never taken.
   */
  function RandomCase(pick: nat): (m: Mood)
    ensures m in AllCases && m != Moodless
  {
    AllCases[pick % |AllCases|]
  }

  /** Every declared case can be drawn. */
  lemma RandomCaseReachesEveryCase(m: ActiveMood)
    ensures exists pick :: RandomCase(pick) == m
  {
    var k := match m case Happy => 0 case Angry => 1 case Sad => 2 case InLove => 3;
    assert RandomCase(k) == m;
  }
}
