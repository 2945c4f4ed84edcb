/** Small numeric helpers shared by the viewer and the offline script. */
module Numbers {

  function Min(a: int, b: int): int { if a <= b then a else b }

  function MinReal(a: real, b: real): real { if a <= b then a else b }

  function MaxReal(a: real, b: real): real { if a >= b then a else b }

  /** Clamping to [0, 1]: JavaScript's `Math.min(1, Math.max(0, x))` and
      numpy's `np.clip(x, 0.0, 1.0)` alike. */
  function Clamp01(x: real): (c: real)
    ensures 0.0 <= c <= 1.0
    ensures x <= 0.0 ==> c == 0.0
    ensures x >= 1.0 ==> c == 1.0
    ensures 0.0 <= x <= 1.0 ==> c == x
  {
    MinReal(1.0, MaxReal(0.0, x))
  }
}
