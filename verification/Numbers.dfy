/** Machine arithmetic shared by the modules. */
module Numbers {

  function SaturatingSub(a: nat, b: nat): nat {
    if a < b then 0 else a - b
  }
}
