/** An optional result: `None` where the Java program throws or produces
    no value. */
module Wrappers {

  /** `None` stands for a Java exception (or a NaN that nothing reads);
      `Some` carries the value the Java code returns. */
  datatype Option<+T> = None | Some(value: T)
}
