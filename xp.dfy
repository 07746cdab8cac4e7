/** The leveling function of backend/utils/xp.js: every 100 XP is one level,
    starting from level 1. */
module Xp {
  import opened Wrappers

  /** XP and the level derived from it, as `addXp` returns them. */
  datatype XpLevel = XpLevel(xp: int, level: int)

  /** `calculateLevel(xp) = Math.floor(xp / 100) + 1`. Dafny's `/` by a positive
      divisor rounds toward negative infinity, like `Math.floor`, so the
      characterization below holds for negative XP too. */
  function CalculateLevel(xp: int): (level: int)
    ensures 100 * (level - 1) <= xp < 100 * level
  {
    xp / 100 + 1
  }

  /** `addXp(currentXp, earned)`: a missing operand counts as 0 (`|| 0`); the
      level is always the one the leveling function gives for the new total. */
  function AddXp(currentXp: Option<int>, earned: Option<int>): (r: XpLevel)
    ensures r.xp == currentXp.GetOr(0) + earned.GetOr(0)
    ensures currentXp.None? ==> r.xp == earned.GetOr(0)
    ensures earned.None? ==> r.xp == currentXp.GetOr(0)
    ensures 100 * (r.level - 1) <= r.xp < 100 * r.level
  {
    var xp := currentXp.GetOr(0) + earned.GetOr(0);
    XpLevel(xp, CalculateLevel(xp))
  }

  /** The bracket of the contract determines the level: no other integer lies
      in it, so `CalculateLevel` is the floor formula and nothing else. */
  lemma LevelIsUnique(xp: int, level: int)
    requires 100 * (level - 1) <= xp < 100 * level
    ensures level == CalculateLevel(xp)
  {
  }

  /** Non-negative XP is always level 1 or more. */
  lemma LevelAtLeastOne(xp: int)
    requires xp >= 0
    ensures CalculateLevel(xp) >= 1
  {
  }

  /** More XP never means a lower level. */
  lemma LevelMonotone(xp1: int, xp2: int)
    requires xp1 <= xp2
    ensures CalculateLevel(xp1) <= CalculateLevel(xp2)
  {
  }

  /** Every XP value in the block 100k .. 100k + 99 is level k + 1. */
  lemma LevelOnBlock(k: int, xp: int)
    requires 100 * k <= xp < 100 * k + 100
    ensures CalculateLevel(xp) == k + 1
  {
    LevelIsUnique(xp, k + 1);
  }

  /** Fresh records store level 1, which is the level of 0 XP. */
  lemma LevelOfZero()
    ensures CalculateLevel(0) == 1
  {
  }
}
