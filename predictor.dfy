/** The trained networks, seen only as functions from a window to a score. */
module Predictor {
  import opened Windowing
  import opened Chunking

  /** The two loaded networks, `irlstm` and `irlstm_smooth`. */
  datatype Networks = Networks(original: Window -> real, smooth: Window -> real)

  /** The network chosen by the `smooth` flag. */
  function NetworkFor(nets: Networks, smooth: bool): Window -> real {
    if smooth then nets.smooth else nets.original
  }

  /** `network.predict(batch)`, flattened: each window scored on its own. */
  function Scores(net: Window -> real, batch: seq<Window>): seq<real> {
    Map(net, batch)
  }
}
