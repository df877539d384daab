/** What a route handler answers with, reduced to what the model can tell apart. */
module Http {

  datatype Response =
    | RedirectIndex                    // redirect(url_for('index'))
    | RedirectLogin                    // redirect(url_for('login'))
    | RedirectUser(username: string)   // redirect(url_for('user', username=...))
    | RedirectTo(url: string)          // redirect to a caller-supplied "next" target
    | Render(template: string)         // render_template(template, ...)
    | NotFound                         // first_or_404() aborting with 404
    | BadRequest                       // request.files['file'] with no such field (400)
    | ServerError                      // an uncaught exception inside the handler (500)
}
