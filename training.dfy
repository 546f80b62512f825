/** The one rule of the training script that is not a library call: the
    binary target derived from the `Class` column (train_model.py:22). */
module Training {

  /** `1 if x == 'L' else 0`: only the exact, case-sensitive class "L" counts
      as dropout. */
  function DropoutTarget(cls: string): (y: int)
    ensures y == 0 || y == 1
    ensures y == 1 <==> cls == "L"
  {
    if cls == "L" then 1 else 0
  }
}
