/** The colour choice of `showToast`. */
module Toast {

  const ErrorColor := "#ef4444"
  const SuccessColor := "#10b981"
  const InfoColor := "#3b82f6"

  /** The background of a notification: red for "error", green for
      "success", and blue for "info" and every other type. */
  function ToastColor(kind: string): (color: string)
    ensures color == ErrorColor <==> kind == "error"
    ensures color == SuccessColor <==> kind == "success"
    ensures color == InfoColor <==> kind != "error" && kind != "success"
  {
    if kind == "error" then ErrorColor
    else if kind == "success" then SuccessColor
    else InfoColor
  }
}
