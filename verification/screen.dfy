/** The fixed frame size the renderer draws into. */
module Screen {

  /** Columns per frame; one ray is cast per column. */
  const Width: nat := 800

  /** Rows per frame. */
  const Height: nat := 600
}
