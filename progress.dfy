/** The progress bar, reduced to what the scan logic relies on: how often it was advanced. */
module Progress {

  class ProgressBar {
    /** The number of steps the bar was created for. */
    var length: nat
    /** The number of `update` calls so far. */
    var updates: nat
    var finished: bool

    /** `new`: a bar for `total` steps, nothing done yet. */
    constructor(total: nat)
      ensures length == total && updates == 0 && !finished
    {
      length := total;
      updates := 0;
      finished := false;
    }

    /** `update`: one more step. */
    method Update()
      modifies this
      ensures updates == old(updates) + 1
      ensures length == old(length) && finished == old(finished)
    {
      updates := updates + 1;
    }

    /** `finish` */
    method Finish()
      modifies this
      ensures finished
      ensures length == old(length) && updates == old(updates)
    {
      finished := true;
    }
  }
}
