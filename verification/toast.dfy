/** The toast notifications the client components raise through the
    `sonner` library, kept as the last one shown. */
module Toast {
  datatype Notice = Quiet | ErrorToast(message: string) | SuccessToast(message: string)
}
