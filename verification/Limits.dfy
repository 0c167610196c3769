// The size of task[], the same in lessons 5 and 6.
module Limits {
  const NR_TASKS: nat := 64
}
