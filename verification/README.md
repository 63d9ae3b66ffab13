# moodswitch game logic in Dafny

A model of the game logic of *moodswitch*, a SpriteKit arcade game. A ball
carries a **mood**: happy, sad, angry or in love, plus a `Moodless` sentinel
that only the ball can hold. The ball falls through a column of rotating
obstacles whose segments are coloured by mood. Touching a segment of another
colour kills the ball. Between two obstacles sits a **mood-switch pickup**
that gives the ball a new mood. Each pickup credits a four-segment
**power-up meter**. A full meter starts a surge, a slow-down or
invincibility for five pickups.

The project has one module per component of the game:

- `Moods`, `HexColor`, `MoodManager`, `Physics`, `GameInfo`, `Ball`: the mood enum and its colour table, the hexadecimal colour decoder and its inverse, the random mood helpers and the colour match, the physics category bits, the score, and the ball's mood change and jump.
- `ObstacleBase`, `ObstacleCircle`, `ObstacleSquare`, `ObstacleTriangle`, `DotIndex`, `Dots`, `ObstacleDotCircle`, `ObstacleExpandingDotCircle`, `ObstacleDotSquare`, `ObstacleDotTriangle`, `ObstacleDoubleCircle`, `ObstacleSetup`: each obstacle shape's `createShape`, which colours its segments or dots from a shuffled mood sequence and records the obstacle's `moods`. The dotted shapes use the integer rule `moodIndex = (i * k) / n` with append-on-change.
- `MoodSwitcher`, `ObstacleManager`: the pickup's mood choice and the track generator. The generator spawns, chooses the shape, places pickups and prunes obstacles. The model proves the track is always passable: every pickup offers a mood other than the ball's.
- `PowerUp`: the meter. Each credit raises a segment by 30, up to 90. Four full segments start a power-up. Each decrement drains 72 of a 360-degree ring, so the fifth one ends the power-up.
- `GameScene`: contact dispatch, death, pickups, scoring, power-up effects, the camera and the reset between rounds.
- `GameStates`: the Start, Play and GameOver states, with the start screen's tap cooldown and scripted moods.

Every random draw of the game is an explicit argument: `shuffled()`,
`randomElement()` and the redraw-until-different loops. Each function that
takes a draw has a lemma showing that every outcome can be drawn. Positions
and durations are `real`s. The meter's values are integers, because the
game's own values are all small whole numbers.

Three behaviours of the Swift code a reader may not expect, which the model keeps:

- `isInvincible` starts out true.
- The double circle lists only two of its four colours.
- The pickup's redraw loop never ends when every mood it may offer is the ball's own. That case is ruled out by a predicate, and the model proves the predicate always holds on a valid scene.

## Model

| member | source | states |
|---|---|---|
| Moods.AllCasesComplete | moodswitch/Models/MSMoodType.swift:10-14 | `allCases` holds four different moods, and a mood is listed exactly when it is one of the declared cases |
| Moods.BgTextureName | moodswitch/Models/MSMoodType.swift:29-31 | the background texture name is the mood's texture name followed by `_bg` |
| Moods.TextureNamesDistinct | moodswitch/Models/MSMoodType.swift:16-31 | two different moods never share a texture name or a background texture name |
| Moods.ColorHex | moodswitch/Models/MSMoodType.swift:33-44 | every colour code is six upper-case hexadecimal digits |
| Moods.ColorHexDistinct | moodswitch/Models/MSMoodType.swift:33-44 | two different moods have different colour codes |
| Moods.Color | moodswitch/Models/MSMoodType.swift:46-48 | a mood's colour is opaque and prints back as the mood's colour code |
| Moods.ColorInjective | moodswitch/Models/MSMoodType.swift:33-48 | two moods have the same colour if and only if they are the same mood |
| Moods.RandomCase | moodswitch/Models/MSMoodType.swift:50-52 | the random case is always one of the four declared cases, so the `.happy` fallback is never needed |
| Moods.RandomCaseReachesEveryCase | moodswitch/Models/MSMoodType.swift:50-52 | each of the four cases is the result for some draw |
| Physics.CategoryBits | moodswitch/Models/MSPhysicsCategory.swift:11-17 | `none` is zero, every category is a single bit, and two categories share a bit exactly when they are the same category |
| Physics.PairMaskIdentifiesPair | moodswitch/Models/MSPhysicsCategory.swift:11-17 | the OR of two category masks is equal for two pairs if and only if the pairs hold the same categories, in either order |
| Physics.BallPairMasksDistinct | moodswitch/MSGameScene.swift:425-436 | the ball–obstacle, ball–pickup and ball–ledge contact masks are pairwise different, so the contact dispatch never confuses them |
| Physics.NoneDeflectsNothing | moodswitch/Models/MSPhysicsCategory.swift:12 | a body whose collision mask is `none` is deflected by no category |
| Physics.ContactsInvolveTheBall | moodswitch/Models/MSPhysicsCategory.swift:11-17 | among the game's bodies a contact is reported exactly when one of the two bodies is the ball |
| Physics.BallDeflectedOnlyByLedge | moodswitch/Models/MSPhysicsCategory.swift:11-17 | the ball bounces off the ledge and off nothing else |
| GameInfo.NewInfo | moodswitch/Helpers/MSGameInfo.swift:11-16 | a new game info has score 0 and difficulty level 1 |
| GameInfo.Reset | moodswitch/Helpers/MSGameInfo.swift:18-20 | a reset sets the score to 0 and keeps the difficulty level |
| GameInfo.IncrementScore | moodswitch/Helpers/MSGameInfo.swift:22-24 | the score grows by exactly the amount given, which may be negative, and the difficulty level is kept |
| GameInfo.RunAppend | moodswitch/Helpers/MSGameInfo.swift:18-24 | running two lists of calls one after the other is the same as running their concatenation |
| GameInfo.RunScore | moodswitch/Helpers/MSGameInfo.swift:10-26 | after any list of calls the difficulty level is still 1, and the score is the sum of the increments since the last reset |
| HexColor.TrimStart | moodswitch/Helpers/MSMoodManager.swift:38 | the leading characters that are not alphanumeric are dropped, and nothing more: the result is a suffix that starts with an alphanumeric character |
| HexColor.TrimEnd | moodswitch/Helpers/MSMoodManager.swift:38 | the trailing characters that are not alphanumeric are dropped, and nothing more: the result is a prefix that ends with an alphanumeric character |
| HexColor.HexPrefix | moodswitch/Helpers/MSMoodManager.swift:41 | the scan reads the longest prefix made of hexadecimal digits and stops at the first other character |
| HexColor.ScanHex | moodswitch/Helpers/MSMoodManager.swift:41 | the scanned value is below 16 to the power of the string's length |
| HexColor.Decode | moodswitch/Helpers/MSMoodManager.swift:37-68 | a trimmed code whose length is not 3, 6 or 8 gives opaque black; 3 and 6 digits give an opaque colour (the channels of each branch are stated by the lemmas below) |
| HexColor.DecodeOfSixDigits | moodswitch/Helpers/MSMoodManager.swift:50-54 | six digits are read as one number whose top, middle and low bytes are the red, green and blue channels |
| HexColor.SixDigitValue | moodswitch/Helpers/MSMoodManager.swift:41 | the number six digits denote is made of its three digit pairs, most significant first |
| HexColor.DecodeSix | moodswitch/Helpers/MSMoodManager.swift:50-54 | decoding six digits gives an opaque colour whose channels are the values of the three digit pairs |
| HexColor.DecodeOfThreeDigits | moodswitch/Helpers/MSMoodManager.swift:45-49 | three digits are read as one number below 4096 whose three nibbles are each widened to a byte by multiplying by 17 |
| HexColor.DecodeThree | moodswitch/Helpers/MSMoodManager.swift:45-49 | a trimmed code of three hexadecimal digits gives an opaque colour whose channels are the three digits' values times 17 |
| HexColor.DecodeOfEightDigits | moodswitch/Helpers/MSMoodManager.swift:55-59 | eight digits are read as one number below 2^32 and split into AARRGGBB bytes |
| HexColor.DecodeEight | moodswitch/Helpers/MSMoodManager.swift:55-59 | a trimmed code of eight hexadecimal digits gives alpha, red, green and blue as the values of its four digit pairs, in that order |
| HexColor.Byte | moodswitch/Helpers/MSMoodManager.swift:79-81 | `%02X` of a channel is two upper-case hexadecimal digits |
| HexColor.HexString | moodswitch/Helpers/MSMoodManager.swift:70-83 | the printed code is upper-case hexadecimal, 8 digits long when the colour is translucent and 6 when it is opaque |
| HexColor.ByteValue | moodswitch/Helpers/MSMoodManager.swift:79-81 | the two digits printed for a channel read back as that channel |
| HexColor.ByteOfPair | moodswitch/Helpers/MSMoodManager.swift:79-81 | printing the value of two digits gives those digits back in upper case |
| HexColor.SixDigitRoundTrip | moodswitch/Helpers/MSMoodManager.swift:37-83 | decoding six digits and printing the colour gives back the same digits in upper case |
| HexColor.UpperSixDigitRoundTrip | moodswitch/Helpers/MSMoodManager.swift:37-83 | for an upper-case six-digit code, decoding and printing gives back the code itself |
| HexColor.OpaqueEncodeRoundTrip | moodswitch/Helpers/MSMoodManager.swift:37-83 | printing an opaque colour and decoding the result gives back the same colour |
| HexColor.EncodeRoundTrip | moodswitch/Helpers/MSMoodManager.swift:37-83 | printing any colour, opaque or translucent, and decoding the result gives back the same colour |
| Sequences.Shuffle | moodswitch/Helpers/MSMoodManager.swift:16-18 | `shuffled()` with its draws passed in returns a rearrangement of its input |
| Sequences.ShuffleReachesEveryPermutation | moodswitch/Helpers/MSMoodManager.swift:16-18 | every rearrangement of the input is the result of some draws |
| MoodManager.MoodSequenceFacts | moodswitch/Helpers/MSMoodManager.swift:14-18 | a shuffled mood list has four entries, no repeats, and holds every declared mood |
| MoodManager.FourDifferentMoods | moodswitch/Helpers/MSMoodManager.swift:14-18 | conversely, any four different moods form a rearrangement of the active moods |
| MoodManager.RandomMoodSequence | moodswitch/Helpers/MSMoodManager.swift:16-18 | `getRandomMoodSequence` returns a rearrangement of the four active moods |
| MoodManager.EveryMoodSequenceDrawable | moodswitch/Helpers/MSMoodManager.swift:16-18 | every rearrangement of the four active moods can be drawn |
| MoodManager.RandomMood | moodswitch/Helpers/MSMoodManager.swift:20-22 | `getRandomMood` yields the active mood the draw selects, so it never yields `Moodless`, and the `.happy` fallback is never taken because the list is not empty |
| MoodManager.RandomMoodReachesEveryMood | moodswitch/Helpers/MSMoodManager.swift:20-22 | each of the four active moods is the result for some draw, so the `.happy` fallback is never needed |
| MoodManager.IsMoodMatch | moodswitch/Helpers/MSMoodManager.swift:24-31 | a match needs a shape node and a ball with a mood; without either the answer is false |
| MoodManager.MatchIsMoodEquality | moodswitch/Helpers/MSMoodManager.swift:24-31 | against a segment filled with a mood's colour, the ball matches if and only if it has that very mood |
| Ball.NewBall | moodswitch/Nodes/MSBall.swift:15-32 | a new ball is happy, at rest and not falling, tests contacts with obstacles and the ledge, and is deflected by the ledge only |
| Ball.Jump | moodswitch/Nodes/MSBall.swift:34-37 | a jump replaces the velocity with the jump's launch and changes nothing else |
| Ball.JumpForgetsVelocity | moodswitch/Nodes/MSBall.swift:34-37 | the velocity before a jump does not matter: two balls that differ only in velocity are equal after the same jump |
| Ball.OtherMoods | moodswitch/Nodes/MSBall.swift:40-45 | the moods a redraw can end on: at least three, and an active mood is among them exactly when the ball does not have it |
| Ball.ChangeMood | moodswitch/Nodes/MSBall.swift:39-55 | a given mood is taken as it is; with none given the new mood is an active mood different from the old one; nothing but the mood changes |
| Ball.ChangeMoodReachesEveryOther | moodswitch/Nodes/MSBall.swift:40-45 | every active mood the ball does not have can be the result of a random change |
| MoodSwitcher.NewPickup | moodswitch/Nodes/MSMoodSwitcher.swift:16-34 | a new pickup keeps both mood lists as given, has the mood-switch category, tests contacts with the ball and is deflected by nothing |
| MoodSwitcher.PickupTouchesOnlyTheBall | moodswitch/Nodes/MSMoodSwitcher.swift:28-34 | among the game's bodies a pickup reports a contact exactly with the ball, and nothing deflects it |
| MoodSwitcher.ValidMoods | moodswitch/Nodes/MSMoodSwitcher.swift:37 | the valid moods are the next obstacle's moods that the previous obstacle also shows, in the next obstacle's order |
| MoodSwitcher.GetRandomMood | moodswitch/Nodes/MSMoodSwitcher.swift:36-44 | with no valid mood the current mood is returned; otherwise a valid mood different from the current one |
| MoodSwitcher.Others | moodswitch/Nodes/MSMoodSwitcher.swift:39-42 | the moods the redraw loop can end on are the valid moods other than the current one |
| MoodSwitcher.GetRandomMoodReachesEveryOther | moodswitch/Nodes/MSMoodSwitcher.swift:36-44 | every valid mood other than the current one can be returned, and for those inputs the loop ends |
| MoodSwitcher.FirstDifferentDraw | moodswitch/Nodes/MSMoodSwitcher.swift:39-42 | a draw that ends the loop is a valid mood different from the current one |
| MoodSwitcher.LoopEndsExactly | moodswitch/Nodes/MSMoodSwitcher.swift:39-42 | when every valid mood is the current one, no sequence of draws ends the loop; otherwise one draw can end it |
| MoodSwitcher.PassableOffersANewMood | moodswitch/Nodes/MSMoodSwitcher.swift:36-44 | a pickup offering at least three different moods always ends the loop with a mood different from the ball's |
| ObstacleManager.NewManager | moodswitch/Helpers/MSObstacleManager.swift:12-16 | a new manager has no obstacles and no pickups, remembers a circle as the last shape and stands at position 0 |
| ObstacleManager.Reset | moodswitch/Helpers/MSObstacleManager.swift:18-25 | a reset empties both lists and puts the last position back at 0, keeping the last shape and its moods |
| ObstacleManager.Candidates | moodswitch/Helpers/MSObstacleManager.swift:48-52 | circles and squares are always candidates; a triangle is a candidate exactly when the last shape was not a triangle |
| ObstacleManager.ChooseKind | moodswitch/Helpers/MSObstacleManager.swift:54-58 | the first obstacle is a circle; any later one is a candidate shape |
| ObstacleManager.ChooseKindReachesEveryCandidate | moodswitch/Helpers/MSObstacleManager.swift:58 | with obstacles on the track, every candidate shape can be chosen |
| ObstacleManager.Spawn | moodswitch/Helpers/MSObstacleManager.swift:62-63 | a spawned obstacle has the chosen shape and position, lists four different moods (three for a triangle), and lists exactly the colours it shows |
| ObstacleManager.Generate | moodswitch/Helpers/MSObstacleManager.swift:42-77 | exactly one obstacle is appended (a circle at the first position on an empty track, otherwise a candidate one spacing above the last); from the second obstacle on, a pickup carrying the new and the previous moods is appended at the previous position; the new obstacle becomes the last one |
| ObstacleManager.Prune | moodswitch/Helpers/MSObstacleManager.swift:32-39 | exactly the obstacles no more than 200 points below the view stay, in their order |
| ObstacleManager.UpdateObstacles | moodswitch/Helpers/MSObstacleManager.swift:27-40 | an obstacle is generated exactly when the ball is within two spacings of the last one; then the obstacles left behind are dropped, so at most one is added per frame |
| ObstacleManager.FirstUpdateSpawnsOneCircle | moodswitch/Helpers/MSObstacleManager.swift:27-40 | on an empty track whose last position is 100 points below the ball, the first update spawns exactly one circle at the first position and no pickup |
| ObstacleManager.ConsecutiveShapesShareThree | moodswitch/Helpers/MSObstacleManager.swift:48-52 | since two triangles never follow each other, a pickup between two consecutive shapes offers at least three moods |
| ObstacleManager.NewManagerValid | moodswitch/Helpers/MSObstacleManager.swift:12-16 | a new manager satisfies the passable-track invariant |
| ObstacleManager.ResetValid | moodswitch/Helpers/MSObstacleManager.swift:18-25 | a reset keeps the invariant |
| ObstacleManager.GenerateKeepsValid | moodswitch/Helpers/MSObstacleManager.swift:42-77 | generating an obstacle keeps the invariant: the new pickup is passable |
| ObstacleManager.UpdateKeepsValid | moodswitch/Helpers/MSObstacleManager.swift:27-40 | every frame's update keeps the invariant |
| ObstacleManager.RemovePickupKeepsValid | moodswitch/MSGameScene.swift:454-475 | removing a touched pickup keeps the other pickups passable |
| ObstacleManager.EveryPickupOffersANewMood | moodswitch/Nodes/MSMoodSwitcher.swift:36-44 | on a valid track every pickup gives the ball a mood different from its own, whatever that mood and the draw |
| ObstacleBase.NewObstacle | moodswitch/Nodes/Obstacles/MSObstacle.swift:13-17 | a freshly constructed obstacle has drawn nothing and lists no moods |
| ObstacleBase.Rotate | moodswitch/Nodes/Obstacles/MSObstacle.swift:30-33 | `rotate(duration:)` makes the node turn one full turn per period and changes nothing else |
| ObstacleBase.Segments | moodswitch/Nodes/Obstacles/MSObstacleCircle.swift:40-50 | segment `i` is coloured with the `i`-th mood and has an obstacle body that reports the ball and deflects nothing |
| ObstacleBase.AddSegments | moodswitch/Nodes/Obstacles/MSObstacleCircle.swift:19-56 | the segment loop appends one segment per mood, and appends those moods to the list in the same order, so segment and listed mood match one for one; then the node turns |
| ObstacleBase.AddAllSegments | moodswitch/Nodes/Obstacles/MSObstacleCircle.swift:52 | a segment for every mood appends exactly that sequence to the listed moods |
| ObstacleBase.SegmentsColourExactly | moodswitch/Nodes/Obstacles/MSObstacleCircle.swift:41 | a mood colours a segment if and only if it is one of the moods the segments were made from |
| ObstacleBase.ColouredAsListed | moodswitch/Nodes/Obstacles/MSObstacleCircle.swift:41-52 | pieces coloured one for one with a list show exactly the list's moods |
| ObstacleBase.FreshSegmentsAsListed | moodswitch/Nodes/Obstacles/MSObstacleCircle.swift:41-52 | a fresh obstacle given segments lists exactly the moods it shows |
| ObstacleCircle.CreateShape | moodswitch/Nodes/Obstacles/MSObstacleCircle.swift:11-57 | the circle adds four segments and lists a shuffle of the four moods, one per segment, and turns every 4 seconds |
| ObstacleCircle.EveryArrangementDrawable | moodswitch/Nodes/Obstacles/MSObstacleCircle.swift:14 | every arrangement of the four moods round the circle can be drawn |
| ObstacleCircle.ListsItsColours | moodswitch/Nodes/Obstacles/MSObstacleCircle.swift:41-52 | a fresh circle lists exactly the four colours it shows |
| ObstacleSquare.SectionSide | moodswitch/Nodes/Obstacles/MSObstacleSquare.swift:22-45 | sections 0 to 3 are the top, right, bottom and left sides; any other index draws nothing |
| ObstacleSquare.SectionsAreTheFourSides | moodswitch/Nodes/Obstacles/MSObstacleSquare.swift:22-45 | the four sections are four different sides, so every side is drawn once |
| ObstacleSquare.CreateShape | moodswitch/Nodes/Obstacles/MSObstacleSquare.swift:12-66 | the square adds four sections and lists a shuffle of the four moods, one per section, and turns every 4 seconds |
| ObstacleSquare.EveryArrangementDrawable | moodswitch/Nodes/Obstacles/MSObstacleSquare.swift:15 | every arrangement of the four moods round the square can be drawn |
| ObstacleSquare.ListsItsColours | moodswitch/Nodes/Obstacles/MSObstacleSquare.swift:50-61 | a fresh square lists exactly the four colours it shows |
| ObstacleTriangle.Corners | moodswitch/Nodes/Obstacles/MSObstacleTriangle.swift:37-40 | section `i` runs from corner `i` to the next corner, going round |
| ObstacleTriangle.CornersGoRound | moodswitch/Nodes/Obstacles/MSObstacleTriangle.swift:33-40 | the three sections start at three different corners and each ends where the next starts, so together they close the triangle |
| ObstacleTriangle.CreateShape | moodswitch/Nodes/Obstacles/MSObstacleTriangle.swift:12-62 | the triangle adds three sections and lists the first three moods of a shuffle, one per section, and turns every 4 seconds |
| ObstacleTriangle.ThreeOfFour | moodswitch/Nodes/Obstacles/MSObstacleTriangle.swift:15-17 | a triangle lists three different moods |
| ObstacleTriangle.MissesExactlyOne | moodswitch/Nodes/Obstacles/MSObstacleTriangle.swift:15-17 | exactly one mood is missing from a triangle: the fourth one drawn |
| ObstacleTriangle.EveryTripleDrawable | moodswitch/Nodes/Obstacles/MSObstacleTriangle.swift:15 | every sequence of three different moods can be drawn for the triangle |
| ObstacleTriangle.ListsItsColours | moodswitch/Nodes/Obstacles/MSObstacleTriangle.swift:45-57 | a fresh triangle lists exactly the three colours it shows |
| ObstacleCircle.FreshMoods | moodswitch/Nodes/Obstacles/MSObstacleCircle.swift:14-52 | a fresh circle lists exactly the drawn mood sequence |
| ObstacleSquare.FreshMoods | moodswitch/Nodes/Obstacles/MSObstacleSquare.swift:15-61 | a fresh square lists exactly the drawn mood sequence |
| DotIndex.MoodIndex | moodswitch/Nodes/Obstacles/MSObstacleDotCircle.swift:33 | the mood number `(i * count) / numberOfCircles` of a dot is always a valid index into the mood sequence |
| DotIndex.MoodIndexMonotone | moodswitch/Nodes/Obstacles/MSObstacleDotSquare.swift:44 | a later dot never takes an earlier mood number |
| DotIndex.MoodIndexStep | moodswitch/Nodes/Obstacles/MSObstacleDotSquare.swift:44 | with at least as many dots as moods, the mood number grows by at most one from dot to dot |
| DotIndex.MoodIndexFirst | moodswitch/Nodes/Obstacles/MSObstacleDotSquare.swift:44 | the first dot takes the first mood |
| DotIndex.MoodIndexLast | moodswitch/Nodes/Obstacles/MSObstacleDotSquare.swift:44 | with at least as many dots as moods, the last dot takes the last mood |
| DotIndex.DotIndicesShape | moodswitch/Nodes/Obstacles/MSObstacleDotSquare.swift:40-46 | the dots' mood numbers never go back, start at 0 and stay valid; with at least as many dots as moods they skip no number and end at the last mood |
| DotIndex.CollectOnChange | moodswitch/Nodes/Obstacles/MSObstacleDotSquare.swift:38-67 | the append-on-change loop lists each mood number some dot takes exactly once, in increasing order, and no other; numbers that start at 0, skip none and end at the last mood list the whole sequence |
| DotIndex.AppendOnChange | moodswitch/Nodes/Obstacles/MSObstacleDotSquare.swift:38-67 | over the dots' actual mood numbers, the loop lists exactly the moods some dot takes, once each and in sequence order; all of them when there are at least as many dots as moods, none when there are no dots |
| Dots.ColouredDots | moodswitch/Nodes/Obstacles/MSObstacleDotSquare.swift:44-60 | one dot per action, each with an obstacle body and running its own action |
| Dots.GlowsFor | moodswitch/Nodes/Obstacles/MSObstacleDotSquare.swift:51-61 | one glow per dot, running the same action as its dot |
| Dots.DotColours | moodswitch/Nodes/Obstacles/MSObstacleDotSquare.swift:44-47 | the dots show exactly the moods the mood-number rule picks |
| Dots.ListOnChange | moodswitch/Nodes/Obstacles/MSObstacleDotSquare.swift:38-67 | the listed moods have no repeats, keep the drawn order, and are exactly the moods some dot shows; all four with at least four dots, none without dots |
| Dots.AppendDots | moodswitch/Nodes/Obstacles/MSObstacleDotSquare.swift:40-67 | the loop appends the dots and their glows and the listed moods to what was there, and the listed moods are exactly the colours of the new dots |
| Dots.OutlineMotions | moodswitch/Nodes/Obstacles/MSObstacleDotSquare.swift:55-61 | dot `i` goes round the outline once per period, starting after an `i / n` share of the period |
| Dots.SetDotSpeeds | moodswitch/Nodes/Obstacles/MSObstacleDotSquare.swift:73-80 | every dot and every glow runs at the new speed; nothing else changes |
| ObstacleDotCircle.DotRuns | moodswitch/Nodes/Obstacles/MSObstacleDotCircle.swift:21-34 | out of 25 dots the four moods colour runs of 7, 6, 6 and 6 consecutive dots |
| ObstacleDotCircle.CreateShape | moodswitch/Nodes/Obstacles/MSObstacleDotCircle.swift:14-51 | 25 still dots and their glows are added; the listed moods are replaced by the drawn sequence, whose moods are exactly the dots' colours; the node turns once per rotation period, which both durations record |
| ObstacleDotCircle.EveryMoodHasARun | moodswitch/Nodes/Obstacles/MSObstacleDotCircle.swift:28-50 | every mood of the drawn sequence colours at least one of the 25 dots, and no other mood does |
| ObstacleDotCircle.UpdateRotationSpeed | moodswitch/Nodes/Obstacles/MSObstacleDotCircle.swift:53-55 | only the node's own speed changes |
| ObstacleExpandingDotCircle.FivePerMood | moodswitch/Nodes/Obstacles/MSObstacleExpandingDotCircle.swift:25-37 | out of 20 dots each mood colours five consecutive dots |
| ObstacleExpandingDotCircle.BreathingMotions | moodswitch/Nodes/Obstacles/MSObstacleExpandingDotCircle.swift:100-117 | all 20 dots run the same action: 80 points out and back every 2.5 seconds |
| ObstacleExpandingDotCircle.DotsBreathe | moodswitch/Nodes/Obstacles/MSObstacleExpandingDotCircle.swift:100-117 | every dot runs the breathing action |
| ObstacleExpandingDotCircle.CreateShape | moodswitch/Nodes/Obstacles/MSObstacleExpandingDotCircle.swift:19-61 | 20 breathing dots are added; the whole drawn sequence is appended to the listed moods, which are exactly the dots' colours; the node turns once per rotation period; the durations are not set |
| ObstacleExpandingDotCircle.UpdateRotationSpeed | moodswitch/Nodes/Obstacles/MSObstacleExpandingDotCircle.swift:63-65 | only the node's own speed changes |
| ObstacleDotSquare.CreateShape | moodswitch/Nodes/Obstacles/MSObstacleDotSquare.swift:14-71 | `n` dots are added going round the outline one after another; the appended moods have no repeats, keep the drawn order, are the whole sequence from four dots on, and are exactly the dots' colours; both durations are 0.85 of the rotation period |
| ObstacleDotTriangle.CreateShape | moodswitch/Nodes/Obstacles/MSObstacleDotTriangle.swift:15-73 | as for the dotted square, with the rotation period itself as the dots' period and both durations |
| ObstacleDoubleCircle.MakeRing | moodswitch/Nodes/Obstacles/MSObstacleDoubleCircle.swift:45-75 | a ring has four arcs coloured with the first four moods in order and a glow behind each; it starts a quarter of π turned and spins the given way |
| ObstacleDoubleCircle.CreateShape | moodswitch/Nodes/Obstacles/MSObstacleDoubleCircle.swift:15-43 | two rings coloured alike are added, the outer one turning one way and the inner one the other with the same period; only the first and third moods are listed; both durations record the period |
| ObstacleDoubleCircle.ListsTwoOfFourColours | moodswitch/Nodes/Obstacles/MSObstacleDoubleCircle.swift:24-32 | with four different moods, a fresh double circle shows all four colours but lists only the first and the third, so the second and fourth are never listed |
| ObstacleDoubleCircle.UpdateRotationSpeed | moodswitch/Nodes/Obstacles/MSObstacleDoubleCircle.swift:77-80 | both rings run at the new speed; the node and the listed moods do not change |
| ObstacleSetup.Setup | moodswitch/Nodes/Obstacles/MSObstacle.swift:21-28 | the position becomes exactly the one given and the class's own `createShape` runs; the base class draws and lists nothing; every fresh obstacle except the double circle lists exactly the colours it shows |
| ObstacleSetup.CreateSolidShape | moodswitch/Helpers/MSObstacleManager.swift:62-63 | a fresh circle, square or triangle lists exactly the colours it shows |
| ObstacleSetup.CreateDottedCircle | moodswitch/Nodes/Obstacles/MSObstacleDotCircle.swift:14-51 | a fresh dotted or expanding dotted circle lists exactly the colours it shows |
| ObstacleSetup.CreateDottedOutline | moodswitch/Nodes/Obstacles/MSObstacleDotSquare.swift:14-71 | a fresh dotted square or dotted triangle lists exactly the colours it shows |
| ObstacleSetup.UpdateRotationSpeed | moodswitch/Nodes/Obstacles/MSObstacleDotTriangle.swift:75-82 | whatever the class, changing the speed never changes the listed moods or the colours shown |
| ObstacleSetup.SameColours | moodswitch/Nodes/Obstacles/MSObstacleDoubleCircle.swift:77-80 | obstacles whose pieces carry the same moods, ring by ring, show the same colours |
| PowerUp.Emptied | moodswitch/Nodes/MSPowerUpIndicator.swift:368-370 | every segment is set back to 0 and no segment is added or removed |
| PowerUp.NewMeter | moodswitch/Nodes/MSPowerUpIndicator.swift:155-178 | a new meter has one empty segment for each of the four moods, no power-up running and a full 360-degree ring, and satisfies the meter invariant |
| PowerUp.Activate | moodswitch/Nodes/MSPowerUpIndicator.swift:340-356 | starting a power-up that already runs does nothing; otherwise it runs and the delegate is told; segments and ring are untouched |
| PowerUp.Deactivate | moodswitch/Nodes/MSPowerUpIndicator.swift:358-378 | stopping when nothing runs does nothing; otherwise the power-up stops, the ring is refilled to 360, every segment is emptied and the delegate is told |
| PowerUp.IncreaseProgress | moodswitch/Nodes/MSPowerUpIndicator.swift:231-241 | nothing happens while a power-up runs, for a mood without a segment, or for a full segment; otherwise the segment rises by 30 up to 90 and the ring is untouched; a credit never stops a power-up |
| PowerUp.CreditActivatesExactly | moodswitch/Nodes/MSPowerUpIndicator.swift:231-241 | a credit starts the power-up if and only if it fills its mood's segment while every other segment is already full |
| PowerUp.CreditStep | moodswitch/Nodes/MSPowerUpIndicator.swift:231-241 | after one credit the power-up runs exactly when it already ran, or the credit found its segment below 90 and left every segment full |
| PowerUp.CreditFills | moodswitch/Nodes/MSPowerUpIndicator.swift:234 | one more credit raises the segment by one more step of 30, never past 90, and keeps the ring full |
| PowerUp.CreditsFillSegment | moodswitch/Nodes/MSPowerUpIndicator.swift:231-241 | `k` credits to one mood of an idle meter raise its segment to `min(p + 30 k, 90)`, leave the others alone, and keep the ring full |
| PowerUp.ActivationStep | moodswitch/Nodes/MSPowerUpIndicator.swift:237-239 | one more credit keeps the activation rule true: running exactly when the segment started below 90 and every segment is full |
| PowerUp.CreditsActivateExactly | moodswitch/Nodes/MSPowerUpIndicator.swift:231-241 | after `k` credits to one mood of an idle meter, the power-up runs if and only if the segment started below 90 and every segment is now full |
| PowerUp.OperationsKeepValidTimes | moodswitch/Nodes/MSPowerUpIndicator.swift:231-241 | any number of credits keeps the meter invariant |
| PowerUp.DecreaseProgress | moodswitch/Nodes/MSPowerUpIndicator.swift:306-313 | with no power-up nothing happens; otherwise the ring drains by 72, and once it reaches 0 the power-up stops with the ring refilled; a decrement never starts a power-up |
| PowerUp.ResetMeter | moodswitch/Nodes/MSPowerUpIndicator.swift:414-423 | afterwards no power-up runs and every segment is empty; the delegate is told of a stop exactly when a power-up was running |
| PowerUp.OperationsKeepValid | moodswitch/Nodes/MSPowerUpIndicator.swift:231-423 | a credit, a decrement and a reset each keep the meter invariant: four segments on credit levels, a full ring when idle, all segments full and a ring of whole decrements while running |
| PowerUp.DrainWhileRunning | moodswitch/Nodes/MSPowerUpIndicator.swift:306-313 | while the ring holds more than `k` decrements, `k` decrements keep the power-up running and drain exactly `72 k` degrees |
| PowerUp.DrainEnds | moodswitch/Nodes/MSPowerUpIndicator.swift:306-313 | once `k` decrements cover the ring, the power-up has stopped, the ring is full again and every segment is empty |
| PowerUp.FifthDecrementEnds | moodswitch/Nodes/MSPowerUpIndicator.swift:306-313 | from a full ring the power-up survives four decrements and the fifth ends it |
| GameScene.NewScene | moodswitch/MSGameScene.swift:16-30 | a fresh round: a happy ball at rest at its start, a fresh generator and meter, no power-up, the camera half a screen up, not dead, and `isInvincible` already true |
| GameScene.NewSceneValid | moodswitch/MSGameScene.swift:16-30 | a fresh scene satisfies the scene invariant: a valid generator, a valid meter, and a power-up recorded exactly while the meter runs one |
| GameScene.ActivatePowerUp | moodswitch/MSGameScene.swift:285-293 | the power-up is recorded; a surge speeds rotation up by 1.5, a slow-down slows it by 0.5, invincibility sets `isInvincible`; nothing else in the scene changes |
| GameScene.DeactivatePowerUp | moodswitch/MSGameScene.swift:295-328 | afterwards no power-up is recorded; a surge or slow-down restores base rotation, invincibility clears `isInvincible`, and with no power-up the scene is untouched |
| GameScene.ActivateThenDeactivate | moodswitch/MSGameScene.swift:285-328 | starting and then ending a power-up gives back the scene, except base rotation after a surge or slow-down and `isInvincible` false after invincibility |
| GameScene.PowerUpActivated | moodswitch/MSGameScene.swift:334-339 | a full meter always starts one of the three power-up kinds, leaving meter, score and ball alone |
| GameScene.EveryPowerUpCanStart | moodswitch/MSGameScene.swift:334-339 | each of the three kinds is a possible outcome of the random choice |
| GameScene.HandleNotice | moodswitch/MSGameScene.swift:334-383 | an activation notice starts a power-up and a deactivation ends it; `isInvincible` changes only by starting invincibility or by ending a running invincibility |
| GameScene.Credit | moodswitch/Nodes/MSPowerUpIndicator.swift:231-241 | one credit through the scene leaves its meter equal to the meter credited once on its own; only the power-up state and the rotation can change besides |
| GameScene.Drain | moodswitch/Nodes/MSPowerUpIndicator.swift:306-313 | one decrement leaves the meter decremented once; while the power-up keeps running its effects stay, and when the decrement ends it no power-up is recorded |
| GameScene.DrainTimes | moodswitch/MSGameScene.swift:125-129 | `k` decrements leave the meter decremented `k` times; while the power-up still runs, its effects are untouched |
| GameScene.UpdateScore | moodswitch/MSGameScene.swift:115-130 | the score rises by `n`; with no power-up a given mood is credited once for any positive `n`, because every call of the loop reads the segment before the animations raise it; with one running the meter is drained `n` times; never both, and no mood means only the score changes |
| GameScene.CreditKeepsValid | moodswitch/MSGameScene.swift:119-124 | a credit keeps the scene invariant, so a power-up is recorded exactly when the meter has started one |
| GameScene.DrainKeepsValid | moodswitch/MSGameScene.swift:125-129 | decrements keep the scene invariant, so the power-up is cleared exactly when the meter stops |
| GameScene.UpdateScoreEffect | moodswitch/MSGameScene.swift:115-130 | with no power-up and a positive `n`, the mood's segment rises to `min(p + 30, 90)` and a power-up starts exactly when that filled the last segment; with one running, it survives with `72 n` less while the ring holds more, else it ends with every segment at 0 |
| GameScene.FillOf | moodswitch/Helpers/MSMoodManager.swift:25 | only a shape node has a fill colour to compare |
| GameScene.BallObstacle | moodswitch/MSGameScene.swift:438-452 | the ball is marked dead exactly when it is not invincible, not yet dead, and touches an obstacle node whose fill does not match its mood; nothing else changes |
| GameScene.SegmentContact | moodswitch/MSGameScene.swift:438-452 | touching a segment of mood `n`, the ball dies exactly when it is not invincible and its mood is not `n` (or it was dead already) |
| GameScene.TouchedPickup | moodswitch/MSGameScene.swift:454-456 | a pickup contact that passes the guards names a pickup that is in the generator's list |
| GameScene.BallPickup | moodswitch/MSGameScene.swift:454-475 | a failed guard changes nothing; otherwise the score rises by one, the offered mood is credited or the power-up drained, and exactly that pickup leaves the list; the ball becomes moodless if it was invincible before the contact (with no power-up running) or after the drain (with one running), and otherwise takes the offered mood, even when its own credit starts invincibility |
| GameScene.PickupGivesANewMood | moodswitch/MSGameScene.swift:454-475 | on a valid scene every pickup contact is handled, and a ball the handler does not read as invincible always leaves with a mood different from the one it had |
| GameScene.DidBegin | moodswitch/MSGameScene.swift:425-436 | the OR of the two categories routes a ball-obstacle contact to the obstacle handler and a ball-pickup contact to the pickup handler; any other pair changes nothing |
| GameScene.DidBeginSymmetric | moodswitch/MSGameScene.swift:425-456 | for the game's categories, swapping the two bodies of a contact gives the same outcome |
| GameScene.DidBeginKeepsValid | moodswitch/MSGameScene.swift:425-475 | every contact on a valid scene is handled and leaves the scene valid |
| GameScene.UpdateCamera | moodswitch/MSGameScene.swift:97-106 | the camera never moves down and only jumps to the ball; the ball is dead afterwards exactly when it was, or when it fell more than half a screen below the camera |
| GameScene.Reset | moodswitch/MSGameScene.swift:65-92 | the generator's lists are empty, no power-up runs, the ball is at its start, at rest and moodless, the camera is half a screen up, the score is 0 and every meter segment is 0; `isInvincible` changes only when invincibility was running |
| GameScene.ResetIgnoresBall | moodswitch/MSGameScene.swift:65-92 | what a reset does to generator and meter does not depend on the ball |
| GameScene.ResetKeepsValid | moodswitch/MSGameScene.swift:65-92 | a reset keeps the scene invariant |
| GameScene.UpdateObstacles | moodswitch/Helpers/MSObstacleManager.swift:27-40 | the frame's generator update runs on the scene's manager with the ball's height and leaves the rest of the scene alone |
| GameScene.UpdateObstaclesKeepsValid | moodswitch/Helpers/MSObstacleManager.swift:27-40 | the generator update keeps the scene invariant |
| GameStates.SingleCycle | moodswitch/States/MSStartState.swift:35-37 | each state allows exactly one next state, never itself, and Start, Play, GameOver form a single three-step cycle, together with the Play and GameOver `isValidNextState` |
| GameStates.ResetTaps | moodswitch/States/MSStartState.swift:83-94 | the start screen forgets its taps and nothing else in the game changes |
| GameStates.WillExit | moodswitch/States/MSPlayState.swift:30-32 | leaving Play empties the generator's lists and nothing else; leaving Start forgets the taps; leaving GameOver puts the ball at rest, without gravity, at the bottom middle of the frame, keeping its mood; the Start and GameOver `willExit` do the rest |
| GameStates.EnterStart | moodswitch/States/MSStartState.swift:39-44 | entering Start forgets the taps and runs the generator once for the ball's height, then resets its last position to the first obstacle's, whatever it spawned; ball, score and meter stay (its `setupUI`) |
| GameStates.EnterPlay | moodswitch/States/MSPlayState.swift:18-28 | entering Play gives a happy, falling, resting ball at its start, alive, with score 0, no power-up and every segment 0, and the generator run once from 100 points below the ball on a reset scene |
| GameStates.Enter | moodswitch/States/MSPlayState.swift:14-28 | a transition the current state forbids changes nothing; an allowed one lands in the requested state, and entering GameOver only runs Play's exit |
| GameStates.NewGame | moodswitch/MSGameScene.swift:54-57 | when the scene appears the game is on the start screen with no taps, a happy ball and `isInvincible` set |
| GameStates.NewGameValid | moodswitch/MSGameScene.swift:54-57 | the game starts out satisfying the scene invariant |
| GameStates.ScriptedMood | moodswitch/States/MSStartState.swift:164-185 | exactly the first four taps have a scripted mood: happy, sad, angry, in love |
| GameStates.HandleTap | moodswitch/States/MSStartState.swift:164-228 | the tap count rises by one; the first four taps double-jump and later ones jump normally; the first four set the scripted mood on a ball that has a mood, otherwise the mood stays; nothing else changes |
| GameStates.StartTap | moodswitch/States/MSStartState.swift:55-66 | a start-screen tap counts exactly when five taps were already taken or 0.7 s have passed since the last counted tap; an ignored tap changes nothing |
| GameStates.Tap | moodswitch/States/MSPlayState.swift:38-40 | during play a tap only makes the ball jump; on the start screen it is the cooldown tap; after game over it returns to the start screen with no taps |
| GameStates.StateUpdate | moodswitch/States/MSStartState.swift:74-81 | Start hands over to Play exactly when the first obstacle is within three quarters of a screen above the ball; Play only runs the generator for the ball's height; GameOver does nothing |
| GameStates.BallMoved | moodswitch/MSGameScene.swift:94-107 | the physics engine moving the ball changes its position and nothing else in the game |
| GameStates.AfterDeath | moodswitch/MSGameScene.swift:413-418 | a death during play leads to the game-over screen; otherwise the game is left as it is |
| GameStates.Frame | moodswitch/MSGameScene.swift:94-107 | a frame runs the state's update first, then the camera and fall check on the scene it left; a fall during play ends the round with the generator's lists emptied, and otherwise the state stays as the update left it |
| GameStates.Contact | moodswitch/MSGameScene.swift:425-452 | a contact is resolved by the scene; a death it causes during play ends the round at once with the generator's lists emptied, and in any other case the state stays |
| GameStates.DeathEndsTheRound | moodswitch/MSGameScene.swift:97-106 | during play a fall off the screen or a deadly contact ends in GameOver with the generator's lists empty, while on the start screen a death leaves the state alone |
| GameStates.PlayStartsWithOneCircle | moodswitch/States/MSPlayState.swift:18-28 | a round begins with exactly one obstacle, a circle at the first position, no pickup and a happy ball, given that the generator spawns and does not prune it |
| GameStates.WillExitKeepsValid | moodswitch/States/MSPlayState.swift:30-32 | leaving any state keeps the invariant |
| GameStates.EnterPlayKeepsValid | moodswitch/States/MSPlayState.swift:18-28 | entering Play keeps the invariant |
| GameStates.EnterKeepsValid | moodswitch/States/MSStartState.swift:39-44 | every transition, allowed or not, keeps the invariant |
| GameStates.TapKeepsValid | moodswitch/States/MSStartState.swift:55-66 | a tap in any state keeps the invariant |
| GameStates.FrameKeepsValid | moodswitch/MSGameScene.swift:94-106 | a frame (state update, camera, fall check, possible game over) keeps the invariant |
| GameStates.ContactKeepsValid | moodswitch/MSGameScene.swift:425-436 | on a valid game every contact is handled, and the game stays valid |
| GameStates.StepsKeepValid | moodswitch/MSGameScene.swift:94-136 | every input (tap, ball movement, frame, contact) keeps the invariant, so it holds for any run of the game |

## Left out

- Rendering is not modelled: shapes, paths, glows, labels, particles, textures, the background flash and the camera's screen geometry. An obstacle keeps only the facts the game logic reads: its moods, its pieces' colours and physics masks, and its actions as data.
- The physics engine is not modelled. Gravity, impulses and contact detection are not stepped. The ball's position is an input, a jump is recorded as the launch it gives, and contacts arrive as values.
- SpriteKit action timing is not modelled. Fades, the meter's animations and the 1.25 s wait before the game-over screen are collapsed: their end state takes effect at once. This includes Start's `resetState` after its fade-out, the death's request for GameOver, and a credit's activation of a power-up. Where the order matters within one handler, the model keeps the order the game observes: the pickup handler still reads `isInvincible` from before the credit, and several credits in one `updateScore` call raise the segment by one step only.
- GameScene.Reset: it does not model repositioning the meter node, the score label or the power-up sprite, which are presentation only.
- Several helpers the game calls are not part of this model, so each becomes an input or an abstract value with the contract its call site implies:
  - `getActiveMoodSequence` and `getRandomMoodSequenceForDoubleCircle` become mood-sequence arguments.
  - `speedUpRotation`, `slowDownRotation` and `resetRotationSpeed` become the generator's rotation mode.
  - `MSBall(radius:)` and `jump(.doubleJump)` are not declared in the code; the model keeps only the kind of jump.
- `Moodless` is used by the scene but not declared in the mood enum. It is modelled as a fifth mood with no colour, so it matches no segment.
- Score overflow is not modelled: the score is an unbounded integer. Swift's trapping `Int` would stop the program after 2^63 - 1 points.
- The float conversion in `SKColor(hex:)` and `hexString` is idealised as exact integer channels.
- HexColor.TrimStart: treats only ASCII letters and digits as alphanumeric, while `CharacterSet.alphanumerics` also keeps Unicode letters and digits, and Swift counts grapheme clusters; a code such as `#12345é` decodes in the game but falls back to black here. The game's own colour codes are all ASCII.
- HexColor.TrimEnd: the same ASCII-only restriction as TrimStart, at the end of the string.
- A pickup is removed by its index in the generator's list, not by the Swift code's `firstIndex(of:)` identity search. The two agree because every pickup node is distinct.
- Start's `setupUI` passes an extra `currentScore:` argument to `updateObstacles`. The generator shown takes no such argument and has no score-based difficulty, so the argument is dropped.
- Play's `didEnter` sets a ball position that `reset` overwrites at once. The model computes it, but only the reset position is observable.
- `ContentView`, `MSGameContext`, `MSLayoutInfo`, `MSBackground` and the power-up meter's drawing code are not part of this model beyond the numbers they supply.
