/** The fixed PIN length. The keypad's click listener and the status-dot row
    each hard-code it as 4; it is defined once here. */
module Pin {

  const PinLength: nat := 4
}
